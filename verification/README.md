# Verified models of a personal-finance workbench

This project models seven parts of the repository and proves what they promise over every input,
every run or every reachable state. Each part follows the form of its source: classes and loops
where the code updates things in place, functions where it only computes. A method is tied to a
function of its inputs or of the old state, and the theorems are about those functions. `Common` and
`TextOrder` hold what several parts share: optional values and the sorting of text.

- **Undoable accounting decisions** (`AccountingLog`, `AccountingIntelligence`, `Decisions`,
  `DecisionRuns`, `DecisionTheorems`, `DecisionOrder`, `DecisionReentry`, `LearnedRules`). An append-only log of
  corrections, learned-rule applications and undos. The undo rebuilds a history from the log and walks
  back over already-undone predecessors by comparing words and legs. The proof carries a ghost
  trail through every run and shows that the walk lands on the treatment of the most recent decision
  not undone, even when different decisions look alike, and says exactly when it does not.
- **First-in-first-out lots, the mortgage and statement histories** (`Money`, `Fifo`, `FifoTheorems`,
  `Mortgage`, `Statements`). The generator and the independent checker agree; units and basis are
  conserved; the cent-rounded loan stays within a stated distance of the exact one; histories
  telescope. Quantities are counted in units of 1e-8 and money in cents.
- **Merchant catalog** (`Catalog`, `CatalogTheorems`). The alias index stays the exact inverse of the
  alias lists; nothing is forgotten; a legacy layer installs the same way in any listing order.
- **Grammar induction and its sampler** (`Induction`, `Sampler`). The incrementally kept set of
  unexplained lines agrees with recomputing first matches from scratch; the round-robin is fair.
- **Hash-chained exam log** (`ExamLog`, `Runner`). Replay restores the resume state, edits are
  located, and spend is bounded over any number of interrupted sessions.
- **Affected-test selection** (`TestSelection`). Exact reverse reachability on any import graph, and a
  package collapse that drops no affected test.
- **Descriptor span claiming** (`Descriptor`, `DescriptorRules`, `AchHeads`). Spans laid out after data element 43 of
  ISO 8583 and the Company/Batch Header Record of the Nacha Operating Rules: claimed spans never
  overlap, and every character is claimed once or lies in one unclaimed run.

## Where the code differs from what it says

- A learned rule can come back to a movement it has already ruled on, when two rules assign the
  categories the other was learned in. Undoing it then pairs its first snapshot with its last position
  and can drop a ruling nobody undid (`DecisionReentry.ReentryLosesALiveDecision`).
- An explanation can resolve to different legs on the movements of one correction, since a named
  component is dropped on the movement whose own account it names; only the legs of the last movement
  are saved. An undo restores a movement only if its ruling has the saved legs; the others are retired
  and keep the ruling (`DecisionTheorems.CorrectThenUndoIff`).
- Whether an undo is right is decided by what the history holds (`Decisions.Fits`): it is right on a
  movement if and only if it fits (`Decisions.UndoIsRightIff`), and a run, re-entries and later steps
  included, means what it should at every point if and only if each of its undos fits
  (`DecisionTheorems.TreatmentsAreIntendedIff`). What a person or program can see to beforehand: when
  no correction that keeps a lesson also assigns a category, and none resolves differently on two of
  its movements, every run is right throughout, whatever the matcher
  (`DecisionOrder.LessonsWithoutCategoriesAreIntended`). A lesson may even assign a category, as long
  as that changes nothing about which rules match (`DecisionOrder.SteadyRunsAreIntended`); two lessons
  that do change it are enough to reach the re-entry above (`DecisionReentry.OpposedReached`).
- `Catalog.submit` is described as idempotent. Resubmitting queues nothing exactly when no accepted
  key came with two different examples (`CatalogTheorems.ResubmissionIsIdempotentIff`).
- The coverage reported by an induction is the coverage recomputed on the final profile exactly when no
  template was kept or the training counts do not add up to zero; otherwise it is one too high
  (`Induction.ReportedCoverageIsRecomputedIff`), and a line no movement carries is enough to get there
  (`Induction.ZeroCountsOverstate`). With positive counts it is always the recomputed one
  (`Induction.Induce`).
- The sampler's examples are described as unlike each other, picked farthest first. The pick looks at
  the chosen line a candidate resembles least, so the picks of every group are farthest first exactly
  when at most two are wanted (`Sampler.FarthestFirstIff`), that is, when fewer lines are to be shown
  than three to a group (`Sampler.QuotaIsTwoIff`). From the third pick on, a line with exactly the
  tokens of a chosen one can come before a line that shares nothing with any of them
  (`Sampler.TwinBeatsStranger`).
- The generator accepts trades of a quantity or price that is zero or negative; the checker refuses
  them. The two agree exactly on runs of positive trades (`FifoTheorems.CheckerAgreesWithGenerator`).
- The run log's chain is described as broken by any later edit. What the chain alone cannot show are
  exactly the alterations that cut the log back and append other records, or none, in the ordinary way
  (`ExamLog.UnnoticedIffAppended`); every other one is located (`ExamLog.AlterationIsLocated`), and
  those end in a different last hash (`ExamLog.AlterationChangesTheEnd`). Of replacements of a single
  record only that of the last one, redone with a matching hash, is of this kind
  (`ExamLog.EditIsLocated`).

## Model

| member | source | states |
|---|---|---|
| `AccountingIntelligence.Ledger.SaveCorrection` | product/viva/accounting_intelligence.py:134-155 | a lesson is recorded before its correction, with the shares of its legs removed, under the correction's own identity; both carry the legs of the movement resolved last |
| `AccountingIntelligence.Ledger.RecordRuling` | product/viva/engine.py:479-515 | treatments in force are snapshotted before any ruling is written, then each selected movement is ruled with its own legs, then the correction is saved |
| `AccountingIntelligence.Ledger.ApplyLearnedRules` | product/viva/accounting_intelligence.py:95-120 | one pass over the movements appends exactly the applications judged on the log it started from, and counts them; what those are is `LearnedRules.PassMeans` |
| `AccountingIntelligence.Ledger.Histories` | product/viva/accounting_intelligence.py:172-183 | one pass over the log gives every movement's decisions with the treatment that preceded each |
| `AccountingIntelligence.Ledger.PreviousTreatments` | product/viva/accounting_intelligence.py:184-188 | the snapshots an undo may bring back: the correction's own, then the first of each application of its rule |
| `AccountingIntelligence.Ledger.FollowPredecessors` | product/viva/accounting_intelligence.py:197-205 | the loop over undone predecessors computes the walk the theorems are about |
| `AccountingIntelligence.Ledger.UndoCorrection` | product/viva/accounting_intelligence.py:158-216 | what an undo appends, when it reports success, and how many treatments it changed; a repeat or an unknown identity appends nothing |
| `Decisions.WalkFindsIntended` | product/viva/accounting_intelligence.py:195-205 | from any snapshot that is some decision's result with everything after it undone, the walk over words and legs ends at the latest decision not undone, look-alikes included, where undone decisions kept their saved legs |
| `Decisions.WalkLands` | product/viva/accounting_intelligence.py:195-205 | from any snapshot and over any history, the walk ends where the undone decisions the snapshot meets lead to: from the last one whose saved words and legs it carries to what that one found, and so on |
| `Decisions.LandsAmong` | product/viva/accounting_intelligence.py:195-205 | from a decision's result that is the latest treatment standing or of a decision whose ruling had other legs than were saved |
| `Decisions.LandsWhereLegsKept` | product/viva/accounting_intelligence.py:195-205 | where undone decisions kept their saved legs, any snapshot at all leads to the latest decision standing if some undone decision after it looks like the snapshot, and to itself otherwise |
| `Decisions.UndoOfTopRestores` | product/viva/accounting_intelligence.py:184-214 | undoing the decision in force puts back the walk from its first snapshot over everything before its last position, and nothing exactly when the ruling's legs are not the saved ones |
| `Decisions.UndoIsRightIff` | product/viva/accounting_intelligence.py:184-214 | on one movement, an undo leaves the intended treatment in force if and only if it fits the history, decisions entered twice and legs that varied included |
| `Decisions.UnrepeatedFitsIff` | product/viva/accounting_intelligence.py:184-211 | where no decision has entered the history twice and those before kept their legs, an undo fits exactly if the decision in force kept its own, or changed nothing |
| `DecisionTheorems.CorrectKeepsOk` | product/viva/accounting_intelligence.py:134-155 | a correction keeps the run invariant linking every snapshot to the history |
| `DecisionTheorems.ApplyKeepsOk` | product/viva/accounting_intelligence.py:95-120 | so does any application of an active rule, over whatever it is applied and however often |
| `DecisionTheorems.UndoKeepsOkIff` | product/viva/accounting_intelligence.py:158-216 | an undo, known, unknown or repeated, keeps the run invariant, and every treatment intended, if and only if it fits every movement's history |
| `DecisionTheorems.TreatmentsAreIntendedIff` | product/viva/accounting_intelligence.py:95-216 | in every run, re-entries included, treatments are at every point those of the latest decisions not undone if and only if every undo of the run fits the history it finds |
| `DecisionTheorems.CorrectThenUndoIff` | product/viva/accounting_intelligence.py:206-211 | where the decisions undone last on the movement had their saved legs, a correction undone at once puts a selected movement back if and only if its legs are the saved ones, or the correction changed nothing on it |
| `DecisionTheorems.TreatmentIsThatOfLatestLiveDecision` | product/viva/accounting_intelligence.py:158-216 | in every run without re-entry whose explanations do not resolve differently on two movements, each movement's treatment is that of its most recent decision not undone, or its original one |
| `DecisionOrder.UndoOrderDoesNotMatter` | product/viva/accounting_intelligence.py:158-216 | two undo orders of the same corrections, repeats allowed, end in the same treatments, when each undo fits where it stands |
| `DecisionOrder.PlainUndosFit` | product/viva/accounting_intelligence.py:158-216 | where nothing has entered a movement twice and every ruling has the saved legs, any undos in any order fit |
| `DecisionOrder.UndoOrderLeavesTheSameRules` | product/viva/accounting_intelligence.py:47-55 | two undo orders of the same corrections leave the same rules active, fitting or not |
| `DecisionOrder.UndoingEverythingRestoresTheOriginal` | product/viva/accounting_intelligence.py:158-216 | undoing every correction leaves no rule, and restores every original treatment when each undo fits |
| `DecisionOrder.RepeatedUndoAppendsNothing` | product/viva/accounting_intelligence.py:160-162 | the same undo again appends nothing |
| `DecisionOrder.UndoneRulesAreNeverApplied` | product/viva/accounting_intelligence.py:47-55 | in every run, re-entering or not, no application names a rule whose correction was undone earlier |
| `DecisionOrder.LearningRespectsPeople` | product/viva/accounting_intelligence.py:100-103 | a learning pass leaves every movement a person has ruled on as it is |
| `DecisionOrder.LearnedLog` | product/viva/accounting_intelligence.py:95-120 | judging every movement on the log at the start of a pass is the same as judging each on the log as it grows |
| `DecisionOrder.Perform` | product/viva/accounting_intelligence.py:95-216 | one step of a run is what the methods on the ledger object do |
| `DecisionOrder.LastEligible` | product/viva/accounting_intelligence.py:105-108 | the rule picked is the most recently recorded active rule that matches |
| `LearnedRules.PickIsDue` | product/viva/accounting_intelligence.py:100-110 | a rule is applied to a movement exactly if no person has ruled on it, it is the last one recorded that stands and matches, its words and legs are not in force already, and the purpose is not a defaulted one on which two standing rules that match disagree |
| `LearnedRules.OutputIff` | product/viva/accounting_intelligence.py:123-131 | two rules mean the same exactly if they assign one category and name each major and account equally often, whatever the shares and the order |
| `LearnedRules.PassMeans` | product/viva/accounting_intelligence.py:95-120 | after a pass each movement is ruled, verified and in the category, by the rule due there, with its application and the treatment before it recorded; nothing else changes, and the number reported is that of the movements ruled |
| `LearnedRules.CorrectionMeans` | product/viva/accounting_intelligence.py:134-155 | after a correction each selected movement has the person's verified ruling with its own legs and no other is touched; the correction holds the treatments it replaced; a lesson is kept exactly when asked for, with the same components and no share |
| `LearnedRules.HistoryMembers` | product/viva/accounting_intelligence.py:172-183 | a movement's history holds exactly the corrections that name it and the applications of known rules to it, each with the treatment before it |
| `LearnedRules.ReplaysMean` | product/viva/accounting_intelligence.py:47-55 | the corrections, rules and undone identities read back are exactly those the log records |
| `LearnedRules.VerifiedStands` | product/viva/ledger/projection/core.py:561-565 | a verified ruling stays in force until another verified one or a restoration |
| `LearnedRules.LatestRulingStands` | product/viva/ledger/projection/core.py:561-565 | any other ruling is in force from when it is recorded, and touches no other movement |
| `LearnedRules.PutReplaces` | product/viva/accounting_intelligence.py:47-55 | recording a rule under an identity already there replaces it in place |
| `DecisionOrder.SteadyRunsNeverReenter` | product/viva/accounting_intelligence.py:95-120 | when no lesson assigns a category that changes which rules match, no run ever applies a rule to a movement its own decision already ruled on |
| `DecisionOrder.SteadyRunsAreIntended` | product/viva/accounting_intelligence.py:95-216 | then every permitted run from original treatments has the intended treatments at every point |
| `DecisionOrder.LessonsWithoutCategoriesAreIntended` | product/viva/accounting_intelligence.py:95-216 | for any matcher: when no correction both keeps a lesson and assigns a category, no permitted run re-enters and every run is as intended throughout |
| `DecisionReentry.ReentryRestores` | product/viva/accounting_intelligence.py:184-205 | what undoing a re-entered rule puts back, exactly |
| `DecisionReentry.ReentryUndoIsRightIff` | product/viva/accounting_intelligence.py:184-205 | a rule a pass brings back and that is undone next: the undo is right exactly if the treatment before the rule's first entry leads to the standing one; with saved legs kept, exactly if it is the standing one or some undone decision after that looks like it |
| `DecisionReentry.OpposedReached` | product/viva/accounting_intelligence.py:116-118 | two corrections of other movements are enough to set up two rules that recategorise each other's context |
| `DecisionReentry.ReentryLosesALiveDecision` | product/viva/accounting_intelligence.py:184-205 | from there three learning passes and one undo drop a ruling nobody undid |
| `Money.HalfUpError` | scripts/verify_synthetic_life_5y.py:65-66 | a half-up rounded quotient is within half a unit of the exact one |
| `Money.HalfUpIs` | scripts/verify_synthetic_life_5y.py:65-66 | the result is the nearest integer, a tie going away from zero on both sides |
| `Money.HalfUpShare` | scripts/generate_synthetic_life_5y.py:160 | a rounded share of a basis stays between zero and the whole |
| `Fifo.Life.SellFrom` | scripts/generate_synthetic_life_5y.py:153-166 | the in-place sell loop terminates for every quantity and consumes the lots as specified, refusals included |
| `Fifo.Life.Record` | scripts/generate_synthetic_life_5y.py:146-170 | one trade's effect on the lots and the event it emits; only the traded security is touched, and a refused sale emits nothing |
| `Fifo.ReplaySale` | scripts/verify_synthetic_life_5y.py:127-138 | the checker's deque loop |
| `Fifo.VerifyFifo` | scripts/verify_synthetic_life_5y.py:111-142 | the checker sorts, replays and either refuses or returns units and basis per security; which lists it accepts is `FifoTheorems.AcceptedIff` |
| `FifoTheorems.SalesAgree` | scripts/verify_synthetic_life_5y.py:127-138 | the in-place loop and the checker's queue make the same sale of every non-negative quantity from any lots |
| `FifoTheorems.AcceptedIff` | scripts/verify_synthetic_life_5y.py:115-141 | any list of events is accepted exactly if each says what the lots before it make of it: purchases cost their rounded price and open a lot, sales bring in their rounded price, state the basis the generator's sale takes out of those lots and as gain the rest |
| `FifoTheorems.EventsFollowOrders` | scripts/generate_synthetic_life_5y.py:146-170 | a completed run emits one event per order, numbered in order, with its date, security, units, price, cash, cost and gain |
| `FifoTheorems.SortedIsInOrder` | scripts/verify_synthetic_life_5y.py:115 | the checker replays the events by date and identity, keeping those that share both as listed |
| `FifoTheorems.SeedHolds` | scripts/verify_synthetic_life_5y.py:112-114 | the opening lots of a security are those the positions list for it, in that order |
| `FifoTheorems.ShortUsesEverything` | scripts/generate_synthetic_life_5y.py:155-157 | a sale that is refused has used up all the lots on the way |
| `FifoTheorems.CheckerAgreesWithGenerator` | scripts/verify_synthetic_life_5y.py:111-142 | every date-ordered run the generator completes is accepted exactly when all trades are positive, and then both hold the same lots |
| `FifoTheorems.SaleConserves` | scripts/generate_synthetic_life_5y.py:153-166 | a completed sale takes exactly its quantity and exactly its basis out of the lots |
| `FifoTheorems.RunConserves` | scripts/generate_synthetic_life_5y.py:146-170 | over every sequence of trades, seed plus bought equals sold plus held, in units and in basis to the cent |
| `FifoTheorems.SaleKeepsHealth` | scripts/generate_synthetic_life_5y.py:160-163 | the basis a sale realises lies between nothing and what the lots hold, and no lot is left negative |
| `FifoTheorems.RunKeepsHealth` | scripts/generate_synthetic_life_5y.py:146-170 | over every sequence of positive trades each lot held has units left and a basis of at least zero |
| `FifoTheorems.ShortIff` | scripts/generate_synthetic_life_5y.py:156-157 | a sale is refused exactly when the lots do not cover it |
| `FifoTheorems.SaleIsFirstInFirstOut` | scripts/generate_synthetic_life_5y.py:155-166 | the closed form: whole lots from the front, then one rounded share within half a cent of exact |
| `FifoTheorems.PartSalesConserve` | scripts/generate_synthetic_life_5y.py:153-166 | sales the lots cover between them all go through, and units and basis add up after any number of them |
| `FifoTheorems.PartSalesExhaustTheLots` | scripts/generate_synthetic_life_5y.py:153-166 | however many sales the lots are split into, together they realise the whole basis to the cent |
| `Mortgage.Build` | scripts/generate_synthetic_life_5y.py:424-463 | the month-by-month updates write the specified schedule, refinance included |
| `Mortgage.ScheduleAmortises` | scripts/generate_synthetic_life_5y.py:424-463 | the schedule written amortises the loan in that sense, and states a payoff in the refinance month only |
| `Mortgage.Verify` | scripts/verify_synthetic_life_5y.py:343-398 | the checker accepts exactly the statements that amortise the loan, month by month and through the refinance; one wrong figure is refused |
| `Mortgage.AmortisesIff` | scripts/verify_synthetic_life_5y.py:350-398 | agreeing with the running balances is the same as being right statement by statement: rate, interest, principal, deposit, tax, payment, remaining term and number of each month, and each month opening where the last one closed |
| `Mortgage.ScheduleAgrees` | scripts/verify_synthetic_life_5y.py:345-398 | every schedule the generator writes, of any length, is accepted |
| `Mortgage.EscrowCycles` | scripts/generate_synthetic_life_5y.py:430-434 | the escrow account holds the deposits of the running year and is emptied every December |
| `Mortgage.PrincipalIsConserved` | scripts/generate_synthetic_life_5y.py:426-429 | after any number of months, through the refinance, opening principal equals balance plus all principal paid |
| `Mortgage.DriftIsBounded` | scripts/generate_synthetic_life_5y.py:425-429 | after k payments the rounded balance is within half a cent times the sum of (1+r)^j, j<k, of the unrounded recurrence |
| `Mortgage.ScheduleIsRounded` | scripts/generate_synthetic_life_5y.py:425-429 | the schedule's balances are that rounded recurrence, loan by loan |
| `Statements.BalanceDoc` | scripts/generate_synthetic_life_5y.py:132-136 | a statement's closing is its opening plus its events |
| `Statements.VerifyHistory` | scripts/verify_synthetic_life_5y.py:798-821 | the bridge, seed and continuity checks of one account |
| `Statements.SeedIsLastClosing` | scripts/verify_synthetic_life_5y.py:817-819 | the first opening is compared with what the last document ending earlier closed with, the later listed of two that end together, and with the declared balance only when there is none |
| `Statements.MonthlyIsInOrder` | scripts/verify_synthetic_life_5y.py:815 | the statements compared are the monthly ones by period end and identity, as listed among equals |
| `Statements.AcceptedHistoryTelescopes` | scripts/verify_synthetic_life_5y.py:814-821 | in an accepted history the last closing is the seed plus every event the monthly statements witness, however the documents are listed |
| `Statements.BuildChain` | scripts/generate_synthetic_life_5y.py:132-136 | a running balance carried from statement to statement writes the specified chain |
| `Statements.BuiltChainsAreAccepted` | scripts/generate_synthetic_life_5y.py:132-136 | every chain of statements carried forward month by month passes those checks |
| `Catalog.Store.SubmitHints` | merchant/merchantcore/catalog.py:53-72 | which hints are queued and counted; marks stay with their queued example |
| `Catalog.Store.Pending` | merchant/merchantcore/catalog.py:98-105 | what is worth asking about is the queue minus the marked keys |
| `Catalog.Store.MarkUnanswered` | merchant/merchantcore/catalog.py:118-132 | only queued keys are marked, each with its queued example, and the count is the number newly marked |
| `Catalog.Store.Restage` | merchant/merchantcore/catalog.py:74-91 | stale keys come back sorted and are restaged, and a dry run changes nothing |
| `Catalog.Store.Reindex` | merchant/merchantcore/catalog.py:358-368 | the rebuilt index is the exact inverse of the alias lists, and it is refused exactly when an alias has two owners |
| `Catalog.Store.Add` | merchant/merchantcore/catalog.py:136-158 | an add never meets the alias conflict, keeps the index an inverse, and clears all three queues for every alias of the record it ends in; which record is kept is `CatalogTheorems.AddMeans` |
| `Catalog.Store.Merge` | merchant/merchantcore/catalog.py:197-223 | a merge is refused exactly when an imported alias already names another record, and then nothing has changed; otherwise it reindexes without conflict; which records are replaced is `CatalogTheorems.MergeMeans` |
| `Catalog.Store.Elect` | merchant/merchantcore/catalog.py:323-346 | the entry listed under the id itself wins among the most trusted, otherwise they must agree; the grades in order are verified, corroborated, unverified, anything else |
| `Catalog.Store.Install` | merchant/merchantcore/catalog.py:314-356 | a legacy layer is refused only for a disagreement among equally trusted entries, a current one only for an alias conflict; what is installed is `CatalogTheorems.InstallMeans` |
| `Catalog.Store.Load` | merchant/merchantcore/catalog.py:378-389 | overlaying a saved catalog restores its queues and keeps every invariant, and is refused exactly when the layer cannot be installed |
| `Catalog.AddedConsistent` | merchant/merchantcore/catalog.py:136-153 | the specification of an add keeps every record under its own key and every alias with one owner |
| `Catalog.MergedOneOwner` | merchant/merchantcore/catalog.py:203-221 | a merge that does not clash leaves every alias one owner |
| `Catalog.InstallIsDetermined` | merchant/merchantcore/catalog.py:322-355 | a layer has one outcome, whoever among agreeing finalists is taken |
| `Catalog.LegacyInstallHasOneOwner` | merchant/merchantcore/catalog.py:314-356 | a legacy layer over a consistent catalog never produces an alias conflict |
| `CatalogTheorems.RunsRemember` | merchant/merchantcore/catalog.py:136-223 | over every sequence of adds and merges no record or alias is lost, each alias keeps naming the same id, and what an id holds never becomes less trusted |
| `CatalogTheorems.GradesOverRuns` | merchant/merchantcore/catalog.py:21-29 | over every such sequence a verified record stays verified, a corroborated one ends corroborated or verified, and an unverified one never unknown |
| `CatalogTheorems.AddMeans` | merchant/merchantcore/catalog.py:136-153 | the record goes to the id its key names and says what was submitted unless what was held is more trusted; its aliases grow by the key and the id, and nothing else changes |
| `CatalogTheorems.MergeMeans` | merchant/merchantcore/catalog.py:211-219 | a held record is replaced exactly if it is less trusted than the import, which is then marked as coming from the commons and keeps every alias |
| `CatalogTheorems.InstallMeans` | merchant/merchantcore/catalog.py:314-356 | no record is lost and only a learned layer replaces one, by one of the layer's most trusted entries for the id, the one listed under the id if it is among them, with every alias kept |
| `CatalogTheorems.ElectableIff` | merchant/merchantcore/catalog.py:323-345 | a layer is refused for an id exactly if none of the most trusted entries is listed under it and two of them differ |
| `Catalog.Store.GetFindsOwner` | merchant/merchantcore/catalog.py:164-166 | a lookup finds the record that lists the name among its aliases, if one does |
| `CatalogTheorems.SubmittedMeans` | merchant/merchantcore/catalog.py:53-72 | a key asked for is queued with the example of its last hint and keeps its mark only if no hint brought anything new; every other key is as it was |
| `CatalogTheorems.MarkedMeans` | merchant/merchantcore/catalog.py:118-132 | exactly the queued keys of the batch become marked, each with its queued example |
| `CatalogTheorems.ResubmissionIsIdempotentIff` | merchant/merchantcore/catalog.py:53-72 | resubmitting hints queues nothing exactly when no accepted key came with two different examples |
| `CatalogTheorems.ResubmissionCanQueueAgain` | merchant/merchantcore/catalog.py:61-71 | two examples for one new key are queued again on every resubmission |
| `CatalogTheorems.ListingOrderIsIrrelevant` | merchant/merchantcore/catalog.py:314-356 | two listings of the same entries over the same catalog are refused together or install the same records |
| `CatalogTheorems.ReloadRestores` | merchant/merchantcore/catalog.py:378-389 | a saved catalog installed over the shipped layer it grew from gives exactly the saved records, without conflict |
| `CatalogTheorems.Reload` | merchant/merchantcore/catalog.py:378-389 | loading what a run of adds and merges saved succeeds, and restores records, index and queues |
| `Induction.Apply` | merchant/merchantcore/profile.py:277-291 | the first template explaining the line, and none for a refused line |
| `Induction.AppendingKeepsMatches` | merchant/merchantcore/induce.py:420-422 | a later template never changes how an explained line is matched |
| `Induction.Split` | merchant/merchantcore/induce.py:85-90 | training and held-out lines partition the counts; when both sides are inhabited a line is withheld exactly if its hash says so, and otherwise none is |
| `Induction.RemainingIsRecomputable` | merchant/merchantcore/induce.py:461-466 | filtering the remaining lines by the longer profile gives what filtering all training lines would |
| `Induction.KeptEarnsItsPlace` | merchant/merchantcore/induce.py:458-466 | a template kept for explaining a remaining line is that line's first match |
| `Induction.ConsiderKeeps` | merchant/merchantcore/induce.py:460-466 | a candidate is dropped exactly if it explains nothing that remains, and otherwise appended |
| `Induction.Keep` | merchant/merchantcore/induce.py:458-467 | within a round, the remaining lines stay exactly the unexplained ones, only candidates are added, every kept template is the first match of some training line, and no candidate explains a line still remaining |
| `Induction.Rounds` | merchant/merchantcore/induce.py:433-474 | the same over all rounds; every template was offered by some reply, and the rounds stop because no line is left, the rounds are used up with a template kept in each, or the last reply offered nothing that explains what remains |
| `Induction.Induce` | merchant/merchantcore/induce.py:410-496 | what an induction reports: templates the replies offered; which lines are withheld and which left over, a refused line never; the coverage (with positive counts the recomputed one) and the share of the withheld lines |
| `Induction.ReportedCoverageIsRecomputedIff` | merchant/merchantcore/induce.py:476-494 | the reported coverage is the recomputed weighted coverage exactly when no template was kept or the training counts do not add up to zero; otherwise it is one too high |
| `Induction.ZeroCountsOverstate` | merchant/merchantcore/induce.py:428-494 | one line that no movement carries and a template for it are enough for a coverage of one too many |
| `Sampler.Skeletons` | merchant/merchantcore/induce.py:125-155 | every line that is not blank lands in the group of its masked spine and in no other, in order of text |
| `Sampler.SpineMeans` | merchant/merchantcore/induce.py:145-154 | the spine is the line's tokens with blanks between, a number sign for a token with a digit and an asterisk for a word no second line carries |
| `Sampler.Diverse` | merchant/merchantcore/induce.py:212-230 | distinct lines of the group, as many as wanted and available: a group that fits whole comes in order of text; otherwise no line left at a pick beats the one picked, by tokens, length and text first, then by the lowest least similarity and text |
| `Sampler.PickMeans` | merchant/merchantcore/induce.py:224-229 | the first pick has most different tokens, then most characters, then least text; each later one the smallest share of common tokens with some line chosen, then greatest text |
| `Sampler.FarthestFirstIff` | merchant/merchantcore/induce.py:212-230 | the picks of every group are farthest first if and only if at most two are wanted |
| `Sampler.TwinBeatsStranger` | merchant/merchantcore/induce.py:224-229 | in groups of one spine and any size, the third pick is a line with exactly the tokens of the second, before lines that share no token with either pick |
| `Sampler.QuotaIsTwoIff` | merchant/merchantcore/induce.py:245-248 | a group's quota is two exactly when the limit is below three lines a group |
| `Sampler.QuotaIs` | merchant/merchantcore/induce.py:246-248 | the quota is the limit shared among the groups, at least two and at most five |
| `Sampler.RoundRobin` | merchant/merchantcore/induce.py:250-259 | the sample is as long as the limit and the picks allow, takes each shape's picks turn by turn in the order of the shapes, and is fair |
| `Sampler.TakenIsFair` | merchant/merchantcore/induce.py:250-259 | at every point of the round-robin two shapes' counts differ by at most one unless the smaller has run out |
| `Sampler.Order` | merchant/merchantcore/induce.py:243-244 | the shapes carried by most movements come first, then by text |
| `TextOrder.LessIffPrecedes` | merchant/merchantcore/induce.py:243-244 | text is ordered by the first character that differs, and before what extends it |
| `Sampler.SampleDescriptors` | merchant/merchantcore/induce.py:233-259 | sampling terminates with no repeated line, as long as the limit and the picks allow, fair across the shapes in their order, each shape's picks the greedy ones |
| `ExamLog.RunStore.constructor` | bench/vivabench/capture.py:30-40 | opening a log file rebuilds the resume state a replay gives |
| `ExamLog.RunStore.Append` | bench/vivabench/capture.py:96-109 | one chained record is appended and the resume state stays what a replay gives |
| `ExamLog.CompletedIff` | bench/vivabench/capture.py:106-108 | a cell is done exactly if some record of it is ok |
| `ExamLog.SpentAddsUp` | bench/vivabench/capture.py:106-108 | what was spent is what the records cost, ok or not |
| `ExamLog.RunStore.VerifyChain` | bench/vivabench/capture.py:67-83 | intact or not, and the count is the length of the longest intact prefix |
| `ExamLog.AppendKeepsIntact` | bench/vivabench/capture.py:96-105 | every log built by appending verifies |
| `ExamLog.SameEndSameLog` | bench/vivabench/capture.py:67-83 | two intact logs with the same final hash, between whose records the hash does not collide, are record-for-record identical |
| `ExamLog.SomeHashIsIdeal` | bench/vivabench/capture.py:96-105 | there is a hash of records that collides between no two logs |
| `ExamLog.AlterationIsLocated` | bench/vivabench/capture.py:67-83 | for any altered log, the count ends at the first record from the first difference on that is not linked anew, at the latest at the first record kept from the original |
| `ExamLog.UnnoticedIffAppended` | bench/vivabench/capture.py:67-109 | an altered log verifies if and only if it is the common part with records appended in the ordinary way |
| `ExamLog.AlterationChangesTheEnd` | bench/vivabench/capture.py:67-83 | an altered log that verifies ends in a different last hash |
| `ExamLog.EditIsLocated` | bench/vivabench/capture.py:67-83 | replacing one record breaks the chain at itself or right after it, unless it is the last record, redone with a matching hash |
| `Runner.RunCell` | bench/vivabench/runner.py:268-327 | a done cell leaves the log alone, the budget is checked against actual spend before an attempt, an answer is recorded as ok with its cost and an adapter error as an error without cost, and a crash records nothing |
| `Runner.RunExam` | bench/vivabench/runner.py:245-341 | the matrix is visited in order; every record appended is ok with its cost, or an error that cost nothing, as the attempt at that point came out; a cell becomes done exactly if an attempt at it was answered; a normal finish leaves undone only cells an attempt at which came to an error; a stop leaves a cell undone, with the budget spent or its attempt crashed |
| `Runner.SessionExtends` | bench/vivabench/runner.py:268-327 | every record of a session is chained, due, of a cell of the matrix, and ok or an error as its attempt was answered or not |
| `Runner.FinishSettles` | bench/vivabench/runner.py:268-327 | after a finish every cell is done or an attempt at it in this session came to an error |
| `Runner.CompletionIff` | bench/vivabench/runner.py:315-327 | a cell is done after a session exactly if it was before or some attempt the session recorded was answered |
| `Runner.MatrixCells` | bench/vivabench/runner.py:262-268 | the documents of the matrix follow one another, all candidates of one before the next |
| `Runner.DocumentCells` | bench/vivabench/runner.py:266-268 | so do the candidates of a document, with runs 1 to the number configured, each in the configured mode |
| `Runner.StopMeans` | bench/vivabench/runner.py:271-278 | why a session stopped before the end |
| `Runner.OncePerPlace` | bench/vivabench/runner.py:265-269 | a cell is attempted at most once in a session for each place it has in the matrix |
| `Runner.Plan` | bench/vivabench/runner.py:49-63 | the planned count is the size of the matrix, what remains are its places whose cell is not done, and that is none exactly when every cell is done |
| `Runner.Resume` | bench/vivabench/capture.py:30-40 | reopening the log restores the same completed cells, spend and last hash |
| `Runner.SessionsAreBounded` | bench/vivabench/runner.py:245-341 | over any number of interrupted sessions the log verifies, no cell has two ok records, and spend stays below the budget plus the last record's cost |
| `TestSelection.Reverse` | scripts/test.py:108-111 | the importer graph is the exact reverse of the dependency graph |
| `TestSelection.Affected` | scripts/test.py:113-119 | on any graph, cycles included, the worklist ends with exactly the files that import the changed one through some chain |
| `TestSelection.PackageIsTop` | scripts/test.py:124 | the package of a path is the text before its first slash |
| `TestSelection.IsTestIff` | scripts/test.py:120-121 | a test is a file whose last part begins with the prefix |
| `TestSelection.Select` | scripts/test.py:112-127 | every affected test is selected or covered by its package, a change that affects no test selects its package, nothing else is selected, no file runs twice, and the selection is sorted |
| `TestSelection.CollapseCovers` | scripts/test.py:125-127 | collapsing drops a file only when its package stays |
| `Descriptor.Claim` | merchant/merchantcore/descriptor.py:147-156 | a span is marked whole or, if any character is taken, not at all |
| `DescriptorRules.AttemptsCoverTheRules` | merchant/merchantcore/descriptor.py:175-223 | the spans tried are exactly the matches of the rules, each with the slot of its rule, in this order: aggregator, code, company, literal, contacts, dates, stores, region, city, references, long numbers |
| `DescriptorRules.RegionGranted` | merchant/merchantcore/descriptor.py:210-211 | the region is claimed exactly if nothing claimed before it overlaps it |
| `Descriptor.GrantedDisjoint` | merchant/merchantcore/descriptor.py:165-223 | whatever the rules match, claimed spans are in bounds and pairwise disjoint |
| `Descriptor.RefusedOnlyByOverlap` | merchant/merchantcore/descriptor.py:147-156 | a match is refused only because it overlaps one claimed before it |
| `Descriptor.ClaimPlace` | merchant/merchantcore/descriptor.py:210-218 | the city is tried only when the region next to it was claimed |
| `Descriptor.ParseDescriptor` | merchant/merchantcore/descriptor.py:159-242 | the marks, the slots, the maximal unclaimed runs, and as coverage the claimed share of the characters that are not white space |
| `Descriptor.RunsFromAreRuns` | merchant/merchantcore/descriptor.py:225-234 | the unclaimed runs cover every unclaimed character and none can be extended |
| `Descriptor.SlotsComeBackInOrder` | merchant/merchantcore/descriptor.py:241 | slots come back by position, without overlap, exactly the claimed named spans |
| `Descriptor.EveryCharacterOnce` | merchant/merchantcore/descriptor.py:225-239 | every character is in exactly one claimed span or in exactly one unclaimed run |
| `AchHeads.Collect` | merchant/merchantcore/descriptor.py:311-317 | the owners of each trailing phrase are exactly the originators that print it |
| `AchHeads.SplitHeads` | merchant/merchantcore/descriptor.py:319-332 | every head is split before the longest trailing phrase of up to four words that leaves a name and that two originators print, and is all name when there is none |
| `AchHeads.SplitIsShared` | merchant/merchantcore/descriptor.py:294-301 | a split loses no word, keeps a name, and its description is printed by another line for another originator |
| `AchHeads.SplitIsLongest` | merchant/merchantcore/descriptor.py:322-329 | the split taken is the longest such |
| `AchHeads.SplitIsDetermined` | merchant/merchantcore/descriptor.py:319-332 | a head has one such split |

## Left out

- Rule matching (`_matches`, contexts, dates, recurrence): an arbitrary predicate of the movement, its category in force and the rule; the theorems hold for all of them.
- The ledger store, the rest of the projection and model rulings made between steps: a log of the events the undo reads, projected so that a verified ruling or a restoration wins; runs start from any log of rulings, categories and restorations.
- Category precedence: an assigned category replaces the one before, as a person's assignment does.
- `AccountingIntelligence.Ledger.RecordRuling`: `engine.record_ruling` beyond the snapshot, the rulings and the saved correction, and its refusals before anything is written.
- The 28-digit precision of decimal division: shares and interest are exact quotients rounded once.
- `Fifo.VerifyFifo`: event identities are compared as numbers; the source compares zero-padded text, which sorts the same way for fewer than a million events. Fees are not modelled.
- `AccountingIntelligence.Ledger.SaveCorrection`: whether a lesson is kept is given, and the refusal of a rule that ends before it starts is not modelled.
- `payment`: the installment formula is the same abstract function in the generator and the checker.
- `Mortgage.Verify`: the checks of matching ledger events, refinance documents and yearly tax receipts are not modelled.
- Investment documents, transfers, payroll, certificates of deposit and the other families of the checker: they add more bridges of the same kind.
- Decoding of catalog files: a merged or installed layer is given decoded, with its self-aliases and one owner per alias; text normalisation, linting and the public export are not modelled.
- A catalog store that has raised during construction: what it holds half-way is not described, only that it is refused.
- Regular expressions of templates, descriptors and normalisation: arbitrary predicates, or arbitrary non-empty spans in bounds.
- Parsing of model replies and profile validation: a round's reply is an arbitrary list of templates or nothing.
- `Sampler.SampleDescriptors`: lines fall into tokens in any way, and which tokens hold a digit is given.
- The hash is any function of a record's body; the results about altered logs assume that it collides between no records of the two logs compared and yields the genesis value for none of them. Costs and budgets are whole numbers of a smallest unit; serialisation is taken to round-trip, and a line torn by a crash during the write is not modelled.
- Page extraction, threads and token counts: an attempt ends in an answer with a non-negative cost, a recorded error or a crash. Spend is what the log records; pages paid for before an adapter error are recorded as costing nothing.
- Building the import graph from source files, and the fallbacks of `make_plan` to complete suites.
- Residue text: the runs are spans; their whitespace clean-up and the brand heuristics built on them are not modelled.
