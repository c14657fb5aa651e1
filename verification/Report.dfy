/** The combined outcome of several scanners on one file, and its reduction to one
    verdict per category. */
module Report {
  import opened Wrappers
  import opened Sequences

  datatype Kind = Clean | Malware | Flagged | Partial | Error {
    predicate Detects() { Malware? || Flagged? }

    predicate Incomplete() { Error? || Partial? }

    /** The precedence: clean < partial < error < detection. */
    function Rank(): nat {
      match this
      case Clean => 0
      case Partial => 1
      case Error => 2
      case Malware => 3
      case Flagged => 3
    }
  }

  datatype ScannerResult = ScannerResult(scanner: string, category: string, kind: Kind, reason: Option<string>,
                                         score: Option<real>, location: Option<string>, scored: bool, advisory: bool)

  datatype CategoryVerdict = CategoryVerdict(kind: Kind, reason: Option<string>,
                                             score: Option<real>, location: Option<string>)

  // ----- Grouping

  /** The results of one category, in their original order. */
  function InCategory(results: seq<ScannerResult>, category: string): seq<ScannerResult> {
    Filter(results, (r: ScannerResult) => r.category == category)
  }

  /** The categories in first-seen order. */
  function Categories(results: seq<ScannerResult>): (cs: seq<string>)
    ensures forall c :: c in cs <==> exists r :: r in results && r.category == c
    ensures NoDuplicates(cs)
  {
    if results == [] then []
    else
      var init, last := results[..|results| - 1], results[|results| - 1];
      assert results == init + [last];
      assert forall r :: r in results <==> r in init || r == last;
      var cs := Categories(init);
      if last.category in cs then cs else cs + [last.category]
  }

  /** A Python dict of lists: its keys in insertion order and its entries. */
  datatype Grouped = Grouped(order: seq<string>, entries: map<string, seq<ScannerResult>>)

  ghost predicate GroupsOf(g: Grouped, results: seq<ScannerResult>) {
    && g.order == Categories(results)
    && (forall c :: c in g.entries <==> c in g.order)
    && (forall c :: c in g.entries ==> g.entries[c] == InCategory(results, c))
  }

  /** Appending one result under its category, which starts empty when unseen. */
  lemma GroupsOfAppend(g: Grouped, results: seq<ScannerResult>, r: ScannerResult)
    requires GroupsOf(g, results)
    ensures var c := r.category;
      var seen := if c in g.entries then g else Grouped(g.order + [c], g.entries[c := []]);
      GroupsOf(Grouped(seen.order, seen.entries[c := seen.entries[c] + [r]]), results + [r])
  {
    hide Categories, InCategory;
    CategoriesAppend(results, r);
    forall c { InCategoryAppend(results, r, c); }
    if r.category !in g.entries { AbsentCategory(results, r.category); }
  }

  /** The grouping loop, against `Categories` and `InCategory`. */
  method ByCategory(results: seq<ScannerResult>) returns (g: Grouped)
    ensures g.order == Categories(results)
    ensures forall c :: c in g.entries <==> c in g.order
    ensures forall c :: c in g.entries ==> g.entries[c] == InCategory(results, c) != []
  {
    g := Grouped([], map[]);
    assert GroupsOf(g, results[..0]);
    hide Categories, InCategory, GroupsOf;
    for i := 0 to |results|
      invariant GroupsOf(g, results[..i])
    {
      var r := results[i];
      assert results[..i + 1] == results[..i] + [r];
      GroupsOfAppend(g, results[..i], r);
      if r.category !in g.entries {
        g := Grouped(g.order + [r.category], g.entries[r.category := []]);
      }
      g := Grouped(g.order, g.entries[r.category := g.entries[r.category] + [r]]);
    }
    assert results[..|results|] == results;
    GroupsOfWhole(g, results);
  }

  lemma GroupsOfWhole(g: Grouped, results: seq<ScannerResult>)
    requires GroupsOf(g, results)
    ensures g.order == Categories(results)
    ensures forall c :: c in g.entries <==> c in g.order
    ensures forall c :: c in g.entries ==> g.entries[c] == InCategory(results, c) != []
  {
    forall c | c in g.entries { PresentCategory(results, c); }
  }

  lemma FilteredExists(results: seq<ScannerResult>, p: ScannerResult -> bool)
    ensures Filter(results, p) != [] <==> exists r :: r in results && p(r)
  {
    if Filter(results, p) != [] {
      assert Filter(results, p)[0] in Filter(results, p);
    }
    if r :| r in results && p(r) {
      assert r in Filter(results, p);
    }
  }

  lemma AbsentCategory(results: seq<ScannerResult>, category: string)
    requires category !in Categories(results)
    ensures InCategory(results, category) == []
  {
    FilteredExists(results, (r: ScannerResult) => r.category == category);
  }

  lemma PresentCategory(results: seq<ScannerResult>, category: string)
    requires category in Categories(results)
    ensures InCategory(results, category) != []
  {
    FilteredExists(results, (r: ScannerResult) => r.category == category);
  }

  lemma InCategoryAppend(results: seq<ScannerResult>, r: ScannerResult, category: string)
    ensures InCategory(results + [r], category) ==
      InCategory(results, category) + if r.category == category then [r] else []
  {
    FilterAppend(results, [r], (x: ScannerResult) => x.category == category);
  }

  /** A category comes after those seen before it. */
  lemma CategoriesAppend(results: seq<ScannerResult>, r: ScannerResult)
    ensures Categories(results + [r]) ==
      Categories(results) + if r.category in Categories(results) then [] else [r.category]
  {
    assert (results + [r])[..|results|] == results;
  }

  /** The groups partition the results: every result is in the group of its own
      category with all its occurrences, and in no other. */
  lemma GroupsPartition(results: seq<ScannerResult>, r: ScannerResult, category: string)
    ensures multiset(InCategory(results, category))[r] == if r.category == category then multiset(results)[r] else 0
    ensures r in results ==> r.category in Categories(results)
  {
    FilterMultiplicity(results, (x: ScannerResult) => x.category == category, r);
  }

  // ----- Reduction of one category

  predicate HasKind(results: seq<ScannerResult>, kind: Kind) {
    exists r :: r in results && r.kind == kind
  }

  predicate Detected(results: seq<ScannerResult>) {
    exists r :: r in results && r.kind.Detects()
  }

  predicate AllAdvisory(results: seq<ScannerResult>) {
    forall r :: r in results ==> r.advisory
  }

  predicate AllScored(results: seq<ScannerResult>) {
    forall r :: r in results ==> r.scored
  }

  function Firm(results: seq<ScannerResult>): seq<ScannerResult> {
    Filter(results, (r: ScannerResult) => !r.advisory)
  }

  function Hits(results: seq<ScannerResult>): seq<ScannerResult> {
    Filter(results, (r: ScannerResult) => r.kind == Flagged)
  }

  function Detections(results: seq<ScannerResult>): seq<ScannerResult> {
    Filter(results, (r: ScannerResult) => r.kind.Detects())
  }

  /** Whose silence counts: advisory results are set aside, unless there is nothing else. */
  function Deciding(results: seq<ScannerResult>): seq<ScannerResult> {
    if Firm(results) != [] then Firm(results) else results
  }

  /** What keeps the category from being called clean. */
  function Unfinished(results: seq<ScannerResult>): seq<ScannerResult> {
    Filter(Deciding(results), (r: ScannerResult) => r.kind.Incomplete())
  }

  function FirstOfKind(results: seq<ScannerResult>, kind: Kind): (r: Option<ScannerResult>)
    ensures r.Some? <==> HasKind(results, kind)
    ensures r.Some? ==> r.value in results && r.value.kind == kind
  {
    if results == [] then None
    else if results[0].kind == kind then Some(results[0])
    else
      assert forall r :: r in results <==> r == results[0] || r in results[1..];
      FirstOfKind(results[1..], kind)
  }

  /** The result to report when the deciding scanners did not all finish: an error if
      any, else the first partial. */
  function Blocker(results: seq<ScannerResult>): (r: Option<ScannerResult>)
    ensures r.Some? ==> r.value in Deciding(results)
    ensures HasKind(Deciding(results), Error) ==> r.Some? && r.value.kind.Error?
    ensures !HasKind(Deciding(results), Error) && HasKind(Deciding(results), Partial) ==>
      r.Some? && r.value.kind.Partial?
    ensures !HasKind(Deciding(results), Error) && !HasKind(Deciding(results), Partial) ==> r.None?
  {
    var unfinished := Unfinished(results);
    var error := FirstOfKind(unfinished, Error);
    if error.Some? then error
    else if unfinished != [] then assert unfinished[0] in unfinished; Some(unfinished[0])
    else None
  }

  function ScoreOrZero(r: ScannerResult): real {
    if r.score.Some? then r.score.value else 0.0
  }

  /** Python's `max` by that key: the first among the highest. */
  function TopHit(hits: seq<ScannerResult>): (top: ScannerResult)
    requires hits != []
    ensures top in hits
    ensures forall r :: r in hits ==> ScoreOrZero(r) <= ScoreOrZero(top)
  {
    if |hits| == 1 then hits[0]
    else
      var rest := TopHit(hits[1..]);
      assert forall r :: r in hits <==> r == hits[0] || r in hits[1..];
      if ScoreOrZero(hits[0]) >= ScoreOrZero(rest) then hits[0] else rest
  }

  /** The highest score reported, None when no result carries one. */
  function MaxScore(results: seq<ScannerResult>): (m: Option<real>)
    ensures m.None? <==> forall r :: r in results ==> r.score.None?
    ensures m.Some? ==> exists r :: r in results && r.score == m
    ensures m.Some? ==> forall r :: r in results && r.score.Some? ==> r.score.value <= m.value
  {
    if results == [] then None
    else
      assert forall r :: r in results <==> r == results[0] || r in results[1..];
      var rest := MaxScore(results[1..]);
      if results[0].score.None? then rest
      else if rest.None? || results[0].score.value >= rest.value then results[0].score
      else rest
  }

  /** One category's verdict, branch by branch as the report computes it. */
  function Reduce(results: seq<ScannerResult>): CategoryVerdict
    requires results != []
  {
    var blocker := Blocker(results);
    if AllScored(results) then
      var hits := Hits(results);
      if hits != [] then
        var top := TopHit(hits);
        var score := MaxScore(results);
        CategoryVerdict(Flagged, top.reason, if score.Some? then score else top.score, None)
      else if blocker.Some? then CategoryVerdict(blocker.value.kind, blocker.value.reason, None, None)
      else CategoryVerdict(Clean, None, MaxScore(results), None)
    else
      var detections := Detections(results);
      if detections != [] then
        var malware := FirstOfKind(detections, Malware);
        var top := if malware.Some? then malware.value else detections[0];
        CategoryVerdict(top.kind, top.reason, None, top.location)
      else if blocker.Some? then CategoryVerdict(blocker.value.kind, blocker.value.reason, None, None)
      else CategoryVerdict(Clean, None, None, None)
  }

  /** Every category's verdict. */
  function VerdictsOf(results: seq<ScannerResult>): map<string, CategoryVerdict> {
    map c | c in Categories(results) :: Reduce(GroupOf(results, c))
  }

  function GroupOf(results: seq<ScannerResult>, category: string): (group: seq<ScannerResult>)
    requires category in Categories(results)
    ensures group == InCategory(results, category) != []
  {
    PresentCategory(results, category);
    InCategory(results, category)
  }

  method Verdicts(results: seq<ScannerResult>) returns (order: seq<string>, verdicts: map<string, CategoryVerdict>)
    ensures order == Categories(results)
    ensures verdicts == VerdictsOf(results)
  {
    var g := ByCategory(results);
    order, verdicts := g.order, map[];
    hide Reduce, InCategory, Categories, Filter;
    for i := 0 to |order|
      invariant forall c :: c in verdicts ==> c in order && verdicts[c] == Reduce(GroupOf(results, c))
      invariant forall j :: 0 <= j < i ==> order[j] in verdicts
    {
      var c := order[i];
      assert g.entries[c] == GroupOf(results, c);
      verdicts := verdicts[c := Reduce(g.entries[c])];
    }
  }

  // ----- The two rules

  /** The declarative rule, as a rank: detections are looked for among all results, errors
      and partials only among those that decide. */
  function RuleRank(results: seq<ScannerResult>): nat {
    if Detected(results) then 3
    else if HasKind(Deciding(results), Error) then 2
    else if HasKind(Deciding(results), Partial) then 1
    else 0
  }

  /** The word of the rule: `malware` wins over `flagged` when both are present. */
  function RuleKind(results: seq<ScannerResult>): Kind {
    if HasKind(results, Malware) then Malware
    else if HasKind(results, Flagged) then Flagged
    else if HasKind(Deciding(results), Error) then Error
    else if HasKind(Deciding(results), Partial) then Partial
    else Clean
  }

  lemma RuleAgrees(results: seq<ScannerResult>)
    ensures RuleKind(results).Rank() == RuleRank(results)
    ensures Detected(results) <==> HasKind(results, Malware) || HasKind(results, Flagged)
  {
    if Detected(results) {
      var r :| r in results && r.kind.Detects();
      assert HasKind(results, r.kind);
    }
  }

  lemma SelectionsNonEmpty(results: seq<ScannerResult>)
    ensures Hits(results) != [] <==> HasKind(results, Flagged)
    ensures Detections(results) != [] <==> Detected(results)
    ensures HasKind(Detections(results), Malware) <==> HasKind(results, Malware)
    ensures Firm(results) != [] <==> !AllAdvisory(results)
  {
    FilteredExists(results, (r: ScannerResult) => r.kind == Flagged);
    FilteredExists(results, (r: ScannerResult) => r.kind.Detects());
    FilteredExists(results, (r: ScannerResult) => !r.advisory);
    if HasKind(results, Malware) {
      var r :| r in results && r.kind == Malware;
      assert r in Detections(results);
    }
  }

  /** The reduction gives the rule's word exactly when it is not asked to read
      `malware` on a scored axis, where it only looks for `flagged`. */
  lemma ReduceIsRule(results: seq<ScannerResult>)
    requires results != []
    ensures Reduce(results).kind == RuleKind(results) <==> !(AllScored(results) && HasKind(results, Malware))
  {
    RuleAgrees(results);
    SelectionsNonEmpty(results);
    var detections := Detections(results);
    if detections != [] { assert detections[0] in detections; }
  }

  /** As to precedence alone it departs from the rule exactly when the axis is all
      scored, some result says `malware` and none says `flagged`. */
  lemma ReduceIsRuleRank(results: seq<ScannerResult>)
    requires results != []
    ensures Reduce(results).kind.Rank() == RuleRank(results)
       <==> !(AllScored(results) && HasKind(results, Malware) && !HasKind(results, Flagged))
  {
    RuleAgrees(results);
    ReduceIsRule(results);
    SelectionsNonEmpty(results);
  }

  /** A scored axis whose one engine says `malware` is reported clean: the hypothesis
      above is needed. */
  lemma ScoredMalwareIsLost(r: ScannerResult)
    requires r.scored && r.kind == Malware
    ensures Reduce([r]).kind == Clean && RuleKind([r]) == Malware
  {
    assert r in [r];
    assert forall x :: x in Deciding([r]) ==> x == r;
  }

  /** Filtering does not change which result of a kept word comes first. */
  lemma {:induction false} FirstOfFiltered(results: seq<ScannerResult>, p: ScannerResult -> bool, kind: Kind)
    requires forall r :: r in results && r.kind == kind ==> p(r)
    ensures FirstOfKind(Filter(results, p), kind) == FirstOfKind(results, kind)
  {
    if results == [] {
    } else {
      FirstOfFiltered(results[1..], p, kind);
      if p(results[0]) {
        assert Filter(results, p)[1..] == Filter(results[1..], p);
      }
    }
  }

  lemma FirstIsFirst(results: seq<ScannerResult>)
    requires results != []
    ensures FirstOfKind(results, results[0].kind) == Some(results[0])
  {
  }

  predicate Quotes(v: CategoryVerdict, r: Option<ScannerResult>, withPath: bool) {
    r.Some? && v.reason == r.value.reason && v.location == (if withPath then r.value.location else None)
  }

  /** On a discrete axis the verdict quotes, reason and inner path, the first result of
      its own word: among all results for a detection, among the deciding ones for an
      error or a partial, which carry no path. */
  lemma VerdictQuotesFirst(results: seq<ScannerResult>)
    requires results != [] && !AllScored(results)
    ensures var v := Reduce(results);
      match v.kind
      case Clean => v.reason == None && v.location == None && v.score == None
      case Malware => Quotes(v, FirstOfKind(results, Malware), true)
      case Flagged => Quotes(v, FirstOfKind(results, Flagged), true)
      case Error => Quotes(v, FirstOfKind(Deciding(results), Error), false)
      case Partial => Quotes(v, FirstOfKind(Deciding(results), Partial), false)
  {
    FirstOfFiltered(results, (r: ScannerResult) => r.kind.Detects(), Malware);
    FirstOfFiltered(results, (r: ScannerResult) => r.kind.Detects(), Flagged);
    FirstOfFiltered(Deciding(results), (r: ScannerResult) => r.kind.Incomplete(), Error);
    FirstOfFiltered(Deciding(results), (r: ScannerResult) => r.kind.Incomplete(), Partial);
    if Detections(results) != [] { FirstIsFirst(Detections(results)); }
    if Unfinished(results) != [] { FirstIsFirst(Unfinished(results)); }
  }

  /** It is the first of that word: those before it have another. */
  lemma FirstOfKindIsFirst(results: seq<ScannerResult>, kind: Kind) returns (i: nat)
    requires FirstOfKind(results, kind).Some?
    ensures i < |results| && results[i] == FirstOfKind(results, kind).value
    ensures forall j :: 0 <= j < i ==> results[j].kind != kind
  {
    i := 0;
    if results[0].kind != kind {
      var k := FirstOfKindIsFirst(results[1..], kind);
      i := k + 1;
    }
  }

  /** The first of the highest: those before it score less. */
  lemma TopHitIsFirst(hits: seq<ScannerResult>) returns (i: nat)
    requires hits != []
    ensures i < |hits| && hits[i] == TopHit(hits)
    ensures forall j :: 0 <= j < i ==> ScoreOrZero(hits[j]) < ScoreOrZero(hits[i])
  {
    i := 0;
    if |hits| > 1 && ScoreOrZero(hits[0]) < ScoreOrZero(TopHit(hits[1..])) {
      var k := TopHitIsFirst(hits[1..]);
      i := k + 1;
    }
  }

  /** On a scored axis a hit is quoted by the first of the highest scores; otherwise the
      first error or partial among the deciding results; never with a path. */
  lemma ScoredQuotes(results: seq<ScannerResult>)
    requires results != [] && AllScored(results)
    ensures var v := Reduce(results);
      && v.location == None && v.kind != Malware
      && (v.kind == Flagged ==> Hits(results) != [] && v.reason == TopHit(Hits(results)).reason)
      && (v.kind == Error ==> Quotes(v, FirstOfKind(Deciding(results), Error), false))
      && (v.kind == Partial ==> Quotes(v, FirstOfKind(Deciding(results), Partial), false))
      && (v.kind == Clean ==> v.reason == None)
  {
    FirstOfFiltered(Deciding(results), (r: ScannerResult) => r.kind.Incomplete(), Error);
    FirstOfFiltered(Deciding(results), (r: ScannerResult) => r.kind.Incomplete(), Partial);
    if Unfinished(results) != [] { FirstIsFirst(Unfinished(results)); }
  }

  // ----- Symmetry

  lemma DecidingPermutation(a: seq<ScannerResult>, b: seq<ScannerResult>)
    requires multiset(a) == multiset(b)
    ensures multiset(Deciding(a)) == multiset(Deciding(b))
  {
    FilterPermutation(a, b, (r: ScannerResult) => !r.advisory);
    SameMembers(Firm(a), Firm(b));
  }

  lemma SamePermutation(a: seq<ScannerResult>, b: seq<ScannerResult>)
    requires multiset(a) == multiset(b)
    ensures forall r :: r in a <==> r in b
    ensures forall r :: r in Deciding(a) <==> r in Deciding(b)
  {
    SameMembers(a, b);
    DecidingPermutation(a, b);
    SameMembers(Deciding(a), Deciding(b));
  }

  lemma ScoreOfReduce(results: seq<ScannerResult>)
    requires results != []
    ensures Reduce(results).score ==
      if AllScored(results) && (HasKind(results, Flagged) || Blocker(results).None?) then MaxScore(results) else None
  {
    SelectionsNonEmpty(results);
    if MaxScore(results).None? { ScorelessTop(results); }
  }

  /** Kind and score do not depend on the order in which the engines answered. */
  lemma ReducePermutation(a: seq<ScannerResult>, b: seq<ScannerResult>)
    requires a != [] && b != [] && multiset(a) == multiset(b)
    ensures Reduce(a).kind == Reduce(b).kind && Reduce(a).score == Reduce(b).score
  {
    SamePermutation(a, b);
    MaxScoreSymmetric(a, b);
    ScoreOfReduce(a);
    ScoreOfReduce(b);
    KindOfReduce(a);
    KindOfReduce(b);
  }

  /** The word, in terms that do not depend on order. */
  lemma KindOfReduce(results: seq<ScannerResult>)
    requires results != []
    ensures Reduce(results).kind ==
      if !AllScored(results) then RuleKind(results)
      else if HasKind(results, Flagged) then Flagged
      else if HasKind(Deciding(results), Error) then Error
      else if HasKind(Deciding(results), Partial) then Partial
      else Clean
  {
    ReduceIsRule(results);
    SelectionsNonEmpty(results);
  }

  /** The whole report is as symmetric as its axes. */
  lemma ReportPermutation(a: seq<ScannerResult>, b: seq<ScannerResult>, category: string)
    requires multiset(a) == multiset(b)
    ensures category in Categories(a) <==> category in Categories(b)
    ensures category in Categories(a) ==>
      && VerdictsOf(a)[category].kind == VerdictsOf(b)[category].kind
      && VerdictsOf(a)[category].score == VerdictsOf(b)[category].score
    ensures AllErrored(a) <==> AllErrored(b)
  {
    hide Reduce;
    SameMembers(a, b);
    if category in Categories(a) {
      FilterPermutation(a, b, (r: ScannerResult) => r.category == category);
      ReducePermutation(GroupOf(a, category), GroupOf(b, category));
    }
    if a != [] {
      AllErroredExactly(a);
      AllErroredExactly(b);
      forall c | c in Categories(a)
        ensures forall r :: r in Deciding(InCategory(a, c)) <==> r in Deciding(InCategory(b, c))
      {
        FilterPermutation(a, b, (r: ScannerResult) => r.category == c);
        SamePermutation(InCategory(a, c), InCategory(b, c));
      }
    } else {
      assert b == [];
    }
  }

  lemma MaxScoreSymmetric(a: seq<ScannerResult>, b: seq<ScannerResult>)
    requires forall r :: r in a <==> r in b
    ensures MaxScore(a) == MaxScore(b)
  {
    var m, n := MaxScore(a), MaxScore(b);
    if m.Some? {
      var r :| r in a && r.score == m;
      assert n.Some? && m.value <= n.value;
      var s :| s in b && s.score == n;
      assert n.value <= m.value;
    }
  }

  lemma ScorelessTop(results: seq<ScannerResult>)
    requires MaxScore(results).None?
    ensures var hits := Hits(results);
      hits != [] ==> TopHit(hits).score.None?
  {
    var hits := Hits(results);
    if hits != [] {
      assert TopHit(hits) in results;
    }
  }

  // ----- Monotonicity

  lemma DecidingAppend(results: seq<ScannerResult>, r: ScannerResult)
    ensures var firm := Firm(results);
      Deciding(results + [r]) ==
        if !r.advisory then firm + [r] else if firm != [] then firm else results + [r]
  {
    FilterAppend(results, [r], (x: ScannerResult) => !x.advisory);
    if !r.advisory {
      assert Filter([r], (x: ScannerResult) => !x.advisory) == [r];
    } else {
      assert Filter([r], (x: ScannerResult) => !x.advisory) == [];
    }
  }

  /** What a further result weighs once it is in: its rank, except that an axis which is
      then all scored does not read `malware`. */
  function Weight(results: seq<ScannerResult>, r: ScannerResult): nat {
    if AllScored(results + [r]) && r.kind == Malware then 0 else r.kind.Rank()
  }

  /** With a deciding result already in, or for an advisory one, no further result lowers
      a category. */
  lemma NeverLowered(results: seq<ScannerResult>, r: ScannerResult)
    requires results != [] && (r.advisory || !AllAdvisory(results))
    ensures Reduce(results + [r]).kind.Rank() >= Reduce(results).kind.Rank()
  {
    KindOfReduce(results);
    KindOfReduce(results + [r]);
    DecidingAppend(results, r);
    SelectionsNonEmpty(results);
    KindOfAppend(Firm(results), r);
    KindOfAppend(results, r);
    hide Reduce, Firm, HasKind, Detected, AllScored, AllAdvisory;
  }

  /** The first deciding result has the say alone, but for detections. */
  lemma FirstDeciding(results: seq<ScannerResult>, r: ScannerResult)
    requires results != [] && AllAdvisory(results) && !r.advisory
    ensures var before := Reduce(results).kind;
      Reduce(results + [r]).kind.Rank() < before.Rank() <==>
        && !before.Detects()
        && (AllScored(results) && HasKind(results, Malware) ==> r.scored)
        && Weight(results, r) < before.Rank()
  {
    KindOfReduce(results);
    KindOfReduce(results + [r]);
    DecidingAppend(results, r);
    SelectionsNonEmpty(results);
    assert !HasKind(Firm(results), Error) && !HasKind(Firm(results), Partial);
    KindOfAppend(Firm(results), r);
    KindOfAppend(results, r);
    hide Reduce, Firm, HasKind, Detected, AllScored, AllAdvisory;
  }

  /** A further result lowers a category in one case only: it is the first deciding one
      after advisory ones, which had not detected anything, and it weighs less than what
      they said. An unscored one that brings a scored `malware` to light lowers nothing. */
  lemma MonotoneExactly(results: seq<ScannerResult>, r: ScannerResult)
    requires results != []
    ensures var before := Reduce(results).kind;
      Reduce(results + [r]).kind.Rank() < before.Rank() <==>
        && AllAdvisory(results) && !r.advisory && !before.Detects()
        && (AllScored(results) && HasKind(results, Malware) ==> r.scored)
        && Weight(results, r) < before.Rank()
  {
    if AllAdvisory(results) && !r.advisory {
      FirstDeciding(results, r);
    } else {
      NeverLowered(results, r);
    }
  }

  lemma KindOfAppend(results: seq<ScannerResult>, r: ScannerResult)
    ensures HasKind(results + [r], Malware) <==> HasKind(results, Malware) || r.kind == Malware
    ensures HasKind(results + [r], Flagged) <==> HasKind(results, Flagged) || r.kind == Flagged
    ensures HasKind(results + [r], Error) <==> HasKind(results, Error) || r.kind == Error
    ensures HasKind(results + [r], Partial) <==> HasKind(results, Partial) || r.kind == Partial
    ensures AllScored(results + [r]) <==> AllScored(results) && r.scored
  {
    assert forall x :: x in results + [r] <==> x in results || x == r;
  }

  /** Next to a deciding engine, an advisory one that detects nothing leaves the answer
      alone, in all cases but one: an unscored answer makes a scored axis read the
      `malware` that it had passed over. */
  lemma AdvisoryChangesExactly(results: seq<ScannerResult>, r: ScannerResult)
    requires results != [] && !AllAdvisory(results)
    requires r.advisory && !r.kind.Detects()
    ensures Reduce(results + [r]).kind != Reduce(results).kind <==>
      AllScored(results) && HasKind(results, Malware) && !r.scored
    ensures Reduce(results + [r]).kind != Reduce(results).kind ==> Reduce(results + [r]).kind == Malware
  {
    assert forall x :: x in results + [r] <==> x in results || x == r;
    KindOfReduce(results);
    KindOfReduce(results + [r]);
    RuleAgrees(results);
    hide Reduce, Deciding, Firm;
    DecidingAppend(results, r);
    SelectionsNonEmpty(results);
    KindOfAppend(results, r);
  }

  /** A detection, advisory or not, decides: `malware` first, then `flagged`; only that
      an axis which is all scored reads `flagged` alone. */
  lemma DetectionDecides(results: seq<ScannerResult>, r: ScannerResult)
    requires results != [] && r.kind.Detects()
    ensures var after := Reduce(results + [r]).kind;
      if AllScored(results + [r]) then
        after != Malware && (after == Flagged <==> r.kind == Flagged || HasKind(results, Flagged))
      else after == if HasKind(results, Malware) then Malware else r.kind
  {
    assert forall x :: x in results + [r] <==> x in results || x == r;
    KindOfReduce(results + [r]);
    KindOfAppend(results, r);
  }

  /** The exception occurs: a deciding scored engine says `malware`, an advisory unscored
      one says `clean`, and the second is what turns the axis from clean to malware. */
  lemma AdvisoryCleanRevealsMalware(hit: ScannerResult, clean: ScannerResult)
    requires hit.scored && hit.kind == Malware && !hit.advisory
    requires !clean.scored && clean.kind == Clean && clean.advisory
    ensures Reduce([hit]).kind == Clean && Reduce([hit, clean]).kind == Malware
  {
    ScoredMalwareIsLost(hit);
    assert [hit] + [clean] == [hit, clean] && hit in [hit];
    AdvisoryChangesExactly([hit], clean);
  }

  // ----- The whole report

  /** The report as a whole failed: what decides it is all errors, and no detection
      stands beside them. */
  predicate AllErrored(results: seq<ScannerResult>) {
    !Detected(results) &&
    var deciding := DecidingOf(results, Categories(results));
    deciding != [] && forall r :: r in deciding ==> r.kind == Error
  }

  /** The deciding results of each category, in category order. */
  function DecidingOf(results: seq<ScannerResult>, categories: seq<string>): (ds: seq<ScannerResult>)
    ensures forall r :: r in ds <==> exists c :: c in categories && r in Deciding(InCategory(results, c))
  {
    if categories == [] then []
    else
      assert forall c :: c in categories <==> c == categories[0] || c in categories[1..];
      Deciding(InCategory(results, categories[0])) + DecidingOf(results, categories[1..])
  }

  /** A failed report hides nothing: whenever `AllErrored` holds, every category's
      verdict is `error`. */
  lemma AllErroredMeansError(results: seq<ScannerResult>, category: string)
    requires category in Categories(results)
    ensures AllErrored(results) ==> VerdictsOf(results)[category].kind == Error
  {
    if AllErrored(results) {
      var group := GroupOf(results, category);
      assert forall r :: r in group ==> r in results;
      assert forall r :: r in Deciding(group) ==> r in DecidingOf(results, Categories(results));
      SelectionsNonEmpty(group);
      assert Deciding(group) != [];
      assert Deciding(group)[0] in Deciding(group);
      assert HasKind(Deciding(group), Error);
      RuleAgrees(group);
      ReduceIsRule(group);
    }
  }

  /** It holds exactly when nothing was detected and every deciding result of every
      category is an error: one partial among them is enough for a report. */
  lemma AllErroredExactly(results: seq<ScannerResult>)
    requires results != []
    ensures AllErrored(results) <==>
      && !Detected(results)
      && forall c, r :: c in Categories(results) && r in Deciding(InCategory(results, c)) ==> r.kind == Error
  {
    var ds := DecidingOf(results, Categories(results));
    assert results[0] in results && results[0].category in Categories(results);
    var group := GroupOf(results, results[0].category);
    SelectionsNonEmpty(group);
    assert Deciding(group)[0] in Deciding(group) && Deciding(group)[0] in ds;
  }
}
