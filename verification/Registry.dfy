/** The deployment's engines and categories: the boot check, the selection of a
    request, and running what was selected. */
module Registry {
  import opened Wrappers
  import opened Sequences
  import opened Report
  import opened WireFormat
  import opened Backends

  /** Past this size clamav skips a file. */
  const CLAMAV_MAX_FILE_BYTES: int := 0x8000_0000 - 3

  /** What an engine's class declares. */
  datatype Traits = Traits(category: string, scored: bool)

  /** `builders` maps every known engine to what it declares, or to None when it is
      not configured on this deployment. */
  datatype Deployment = Deployment(
    builders: map<string, Option<Traits>>,
    categoryMap: map<string, seq<string>>,
    defaultCategories: seq<string>,
    advisory: set<string>,
    maxUrlSize: int,
    maxUploadSize: int)

  predicate Available(d: Deployment, name: string) {
    name in d.builders && d.builders[name].Some?
  }

  function TraitsOf(d: Deployment, name: string): Traits
    requires Available(d, name)
  {
    d.builders[name].value
  }

  // ----- Selection

  /** Python's `dict.fromkeys` as a list: first occurrences, in order. */
  function Dedupe(names: seq<string>): (r: seq<string>)
    ensures forall n :: n in r <==> n in names
    ensures NoDuplicates(r)
  {
    if names == [] then []
    else
      var init, last := names[..|names| - 1], names[|names| - 1];
      assert forall n :: n in names <==> n in init || n == last;
      if last in Dedupe(init) then Dedupe(init) else Dedupe(init) + [last]
  }

  function Expand(d: Deployment, categories: seq<string>): seq<string>
    requires forall c :: c in categories ==> c in d.categoryMap
  {
    if categories == [] then []
    else Expand(d, categories[..|categories| - 1]) + d.categoryMap[categories[|categories| - 1]]
  }

  /** What a request's selectors resolve to; an Err is a ValueError (400). */
  function Resolve(d: Deployment, categories: seq<string>, scanners: seq<string>): Result<seq<string>, ()> {
    var wanted := if categories == [] && scanners == [] then d.defaultCategories else categories;
    if exists c :: c in wanted && c !in d.categoryMap then Err(())
    else
      var names := Dedupe(Expand(d, wanted) + scanners);
      if names == [] || exists n :: n in names && !Available(d, n) then Err(()) else Ok(names)
  }

  method ResolveScanners(d: Deployment, categories: seq<string>,
                         scanners: seq<string>) returns (r: Result<seq<string>, ()>)
    ensures r == Resolve(d, categories, scanners)
  {
    var wanted := if categories == [] && scanners == [] then d.defaultCategories else categories;
    var names: seq<string> := [];
    for i := 0 to |wanted|
      invariant forall j :: 0 <= j < i ==> wanted[j] in d.categoryMap
      invariant names == Expand(d, wanted[..i])
    {
      if wanted[i] !in d.categoryMap {
        return Err(());
      }
      assert wanted[..i + 1][..i] == wanted[..i];
      names := names + d.categoryMap[wanted[i]];
    }
    assert wanted[..|wanted|] == wanted;
    var deduped := Dedupe(names + scanners);
    if deduped == [] {
      return Err(());
    }
    for i := 0 to |deduped|
      invariant forall j :: 0 <= j < i ==> Available(d, deduped[j])
    {
      if !Available(d, deduped[i]) {
        return Err(());
      }
    }
    return Ok(deduped);
  }

  /** Named by a category of the request, or by itself. */
  ghost predicate Selected(d: Deployment, categories: seq<string>, scanners: seq<string>, name: string) {
    name in scanners || exists c :: c in categories && c in d.categoryMap && name in d.categoryMap[c]
  }

  /** What a request resolves to: the union of its selectors, once each, the default
      categories standing in for none; refused exactly when a category is unknown, an engine
      is not available, or nothing is selected. */
  lemma ResolveExactly(d: Deployment, categories: seq<string>, scanners: seq<string>)
    ensures var wanted := if categories == [] && scanners == [] then d.defaultCategories else categories;
      var r := Resolve(d, categories, scanners);
      && (r.Ok? <==>
            && (forall c :: c in wanted ==> c in d.categoryMap)
            && (exists n :: Selected(d, wanted, scanners, n))
            && (forall n :: Selected(d, wanted, scanners, n) ==> n in d.builders && d.builders[n].Some?))
      && (r.Ok? ==>
            NoDuplicates(r.value) && forall n :: n in r.value <==> Selected(d, wanted, scanners, n))
  {
    var wanted := if categories == [] && scanners == [] then d.defaultCategories else categories;
    if forall c :: c in wanted ==> c in d.categoryMap {
      var names := Dedupe(Expand(d, wanted) + scanners);
      forall n ensures n in names <==> Selected(d, wanted, scanners, n) {
        ExpandMembers(d, wanted, n);
      }
      assert names != [] ==> Selected(d, wanted, scanners, names[0]);
      assert forall n :: n in names ==> (Available(d, n) <==> n in d.builders && d.builders[n].Some?);
      hide Dedupe, Expand, Selected;
    }
  }

  /** In order: categories in theirs, with their engines in theirs. */
  lemma {:induction false} ExpandOrder(d: Deployment, a: seq<string>, b: seq<string>)
    requires forall c :: c in a + b ==> c in d.categoryMap
    ensures Expand(d, a + b) == Expand(d, a) + Expand(d, b)
    ensures |b| == 1 ==> Expand(d, b) == d.categoryMap[b[0]]
    decreases |b|
  {
    if b == [] {
      assert a + b == a;
    } else {
      ExpandOrder(d, a, b[..|b| - 1]);
      assert (a + b)[..|a + b| - 1] == a + b[..|b| - 1];
    }
  }

  /** No name moves for what comes after it. */
  lemma {:induction false} DedupeOrder(names: seq<string>, more: seq<string>)
    ensures Dedupe(names) <= Dedupe(names + more)
    decreases |more|
  {
    if more == [] {
      assert names + more == names;
    } else {
      DedupeOrder(names, more[..|more| - 1]);
      assert (names + more)[..|names + more| - 1] == names + more[..|more| - 1];
    }
  }

  /** Who decides a selection, flat across its categories: a category of advisory engines
      only loses its say as soon as another category has a firm one. */
  function DecidingScanners(advisory: set<string>, names: seq<string>): seq<string> {
    var firm := Filter(names, (n: string) => n !in advisory);
    if firm != [] then firm else names
  }

  lemma DecidesExactly(advisory: set<string>, names: seq<string>, name: string)
    ensures name in DecidingScanners(advisory, names) <==>
      name in names && (name !in advisory || forall n :: n in names ==> n in advisory)
  {
    var firm := Filter(names, (n: string) => n !in advisory);
    if firm != [] {
      assert firm[0] in firm;
    }
  }

  /** Accepts a selection for files of up to `cap` bytes; false is a ValueError (400). */
  predicate SizeCapDecidable(advisory: set<string>, names: seq<string>, cap: int) {
    !(cap > CLAMAV_MAX_FILE_BYTES && "clamav" in DecidingScanners(advisory, names))
  }

  /** A selection is refused for its size cap exactly when clamav would decide it past what
      it can scan. */
  lemma SizeCapExactly(advisory: set<string>, names: seq<string>, cap: int)
    ensures !SizeCapDecidable(advisory, names, cap) <==>
      cap > 2147483645 && "clamav" in names && ("clamav" !in advisory || forall n :: n in names ==> n in advisory)
  {
    DecidesExactly(advisory, names, "clamav");
  }

  // ----- The boot check

  predicate ValidCategory(d: Deployment, category: string)
    requires category in d.categoryMap
  {
    var names := d.categoryMap[category];
    && names != []
    && (forall n :: n in names ==> Available(d, n) && TraitsOf(d, n).category == category)
    && (forall m, n :: m in names && n in names ==> TraitsOf(d, m).scored == TraitsOf(d, n).scored)
  }

  predicate ClamavDecides(d: Deployment) {
    exists c :: c in d.categoryMap && "clamav" in DecidingScanners(d.advisory, d.categoryMap[c])
  }

  predicate ValidRegistry(d: Deployment) {
    && (forall c :: c in d.categoryMap ==> ValidCategory(d, c))
    && (forall c :: c in d.defaultCategories ==> c in d.categoryMap)
    && (forall n :: n in d.advisory ==> n in d.builders)
    && (ClamavDecides(d) ==> d.maxUrlSize <= CLAMAV_MAX_FILE_BYTES && d.maxUploadSize <= CLAMAV_MAX_FILE_BYTES)
  }

  method ValidateCategory(d: Deployment, category: string) returns (ok: bool)
    requires category in d.categoryMap
    ensures ok == ValidCategory(d, category)
  {
    var names := d.categoryMap[category];
    if names == [] {
      return false;
    }
    // whether the set of scored flags holds True, and whether it holds False
    var scored, unscored := false, false;
    for i := 0 to |names|
      invariant forall j :: 0 <= j < i ==> Available(d, names[j]) && TraitsOf(d, names[j]).category == category
      invariant scored <==> exists j :: 0 <= j < i && TraitsOf(d, names[j]).scored
      invariant unscored <==> exists j :: 0 <= j < i && !TraitsOf(d, names[j]).scored
    {
      if !Available(d, names[i]) || TraitsOf(d, names[i]).category != category {
        return false;
      }
      if TraitsOf(d, names[i]).scored {
        scored := true;
      } else {
        unscored := true;
      }
    }
    ok := !(scored && unscored);
  }

  /** Fails fast at boot; false is a RuntimeError. */
  method ValidateRegistry(d: Deployment) returns (ok: bool)
    ensures ok == ValidRegistry(d)
  {
    var todo := d.categoryMap.Keys;
    var clamavDecides := false;
    while todo != {}
      invariant todo <= d.categoryMap.Keys
      invariant forall c :: c in d.categoryMap && c !in todo ==> ValidCategory(d, c)
      invariant clamavDecides <==>
        exists c :: c in d.categoryMap && c !in todo && "clamav" in DecidingScanners(d.advisory, d.categoryMap[c])
      decreases todo
    {
      var c :| c in todo;
      var valid := ValidateCategory(d, c);
      if !valid {
        return false;
      }
      clamavDecides := clamavDecides || "clamav" in DecidingScanners(d.advisory, d.categoryMap[c]);
      todo := todo - {c};
    }
    for i := 0 to |d.defaultCategories|
      invariant forall j :: 0 <= j < i ==> d.defaultCategories[j] in d.categoryMap
    {
      if d.defaultCategories[i] !in d.categoryMap {
        return false;
      }
    }
    if !(d.advisory <= d.builders.Keys) {
      return false;
    }
    ok := !(clamavDecides && (d.maxUrlSize > CLAMAV_MAX_FILE_BYTES || d.maxUploadSize > CLAMAV_MAX_FILE_BYTES));
  }

  /** What boots: every category names engines, all of them known, configured, of that
      category and of one axis type; defaults and advisory engines exist; and no cap is past
      what clamav can scan where clamav decides a category. */
  lemma BootsExactly(d: Deployment)
    ensures ValidRegistry(d) <==>
      && (forall c :: c in d.categoryMap ==> ConsistentCategory(d, c))
      && (forall c :: c in d.defaultCategories ==> c in d.categoryMap)
      && (forall n :: n in d.advisory ==> n in d.builders)
      && (d.maxUrlSize > 2147483645 || d.maxUploadSize > 2147483645 ==>
            forall c :: c in d.categoryMap ==> !ClamavHasSay(d, c))
  {
    hide ValidCategory, DecidingScanners;
    forall c | c in d.categoryMap
      ensures ValidCategory(d, c) <==> ConsistentCategory(d, c)
      ensures "clamav" in DecidingScanners(d.advisory, d.categoryMap[c]) <==> ClamavHasSay(d, c)
    {
      CategoryExactly(d, c);
    }
  }

  ghost predicate ConsistentCategory(d: Deployment, category: string)
    requires category in d.categoryMap
  {
    var names := d.categoryMap[category];
    && names != []
    && (forall n :: n in names ==> n in d.builders && d.builders[n].Some? && d.builders[n].value.category == category)
    && (forall m, n :: m in names && n in names ==> d.builders[m].value.scored == d.builders[n].value.scored)
  }

  /** clamav is listed, and is not advisory next to one that is not. */
  ghost predicate ClamavHasSay(d: Deployment, category: string)
    requires category in d.categoryMap
  {
    var names := d.categoryMap[category];
    "clamav" in names && ("clamav" !in d.advisory || forall n :: n in names ==> n in d.advisory)
  }

  lemma CategoryExactly(d: Deployment, category: string)
    requires category in d.categoryMap
    ensures ValidCategory(d, category) <==> ConsistentCategory(d, category)
    ensures "clamav" in DecidingScanners(d.advisory, d.categoryMap[category]) <==> ClamavHasSay(d, category)
  {
    DecidesExactly(d.advisory, d.categoryMap[category], "clamav");
    hide DecidingScanners;
  }

  // ----- What the boot check buys

  lemma {:induction false} ExpandMembers(d: Deployment, categories: seq<string>, name: string)
    requires forall c :: c in categories ==> c in d.categoryMap
    ensures name in Expand(d, categories) <==> exists c :: c in categories && name in d.categoryMap[c]
  {
    if categories == [] {
    } else {
      var init, last := categories[..|categories| - 1], categories[|categories| - 1];
      ExpandMembers(d, init, name);
      assert forall c :: c in categories <==> c in init || c == last;
    }
  }

  /** Deciding the union means deciding a part: an engine that decides a selection of
      categories decides one of them on its own. */
  lemma DecidesUnionDecidesPart(d: Deployment, categories: seq<string>, name: string)
    requires forall c :: c in categories ==> c in d.categoryMap
    requires name in DecidingScanners(d.advisory, Dedupe(Expand(d, categories)))
    ensures exists c :: c in categories && name in DecidingScanners(d.advisory, d.categoryMap[c])
  {
    var names := Dedupe(Expand(d, categories));
    DecidesExactly(d.advisory, names, name);
    ExpandMembers(d, categories, name);
    var c :| c in categories && name in d.categoryMap[c];
    DecidesExactly(d.advisory, d.categoryMap[c], name);
    forall n | n in d.categoryMap[c] ensures n in names {
      ExpandMembers(d, categories, n);
    }
  }

  /** If the deployment boots, every categories-only request resolves, to engines of
      those categories only, and passes the size-cap check of both endpoints; so does
      the request naming nothing, when there are default categories. */
  lemma BootCoversRequests(d: Deployment, categories: seq<string>, cap: int)
    requires ValidRegistry(d)
    requires cap == d.maxUrlSize || cap == d.maxUploadSize
    requires forall c :: c in categories ==> c in d.categoryMap
    requires categories != [] || d.defaultCategories != []
    ensures var wanted := if categories == [] then d.defaultCategories else categories;
      var r := Resolve(d, categories, []);
      && r.Ok?
      && (forall n :: n in r.value ==> Available(d, n) && TraitsOf(d, n).category in wanted)
      && SizeCapDecidable(d.advisory, r.value, cap)
  {
    var wanted := if categories == [] then d.defaultCategories else categories;
    assert Expand(d, wanted) + [] == Expand(d, wanted);
    var names := Dedupe(Expand(d, wanted));
    forall n | n in names
      ensures Available(d, n) && TraitsOf(d, n).category in wanted
    {
      ExpandMembers(d, wanted, n);
    }
    assert wanted[0] in wanted && ValidCategory(d, wanted[0]);
    var first := d.categoryMap[wanted[0]][0];
    assert first in d.categoryMap[wanted[0]];
    ExpandMembers(d, wanted, first);
    if "clamav" in DecidingScanners(d.advisory, names) {
      DecidesUnionDecidesPart(d, wanted, "clamav");
    }
  }

  // ----- Running a selection

  function EngineNamed(d: Deployment, name: string): Engine
    requires Available(d, name)
  {
    Engine(name, TraitsOf(d, name).category, TraitsOf(d, name).scored)
  }

  /** What running the named engines comes to; replies come by position. Err is an
      exception out of `run_scanners`. */
  function RunScanners(d: Deployment, names: seq<string>, replies: nat -> Reply): (r: Result<seq<ScannerResult>, ()>)
    ensures r.Ok? <==> names != [] && forall n :: n in names ==> Available(d, n)
    ensures r.Ok? ==> |r.value| == |names| && forall i :: 0 <= i < |names| ==>
      && Available(d, names[i])
      && r.value[i] == ResultOf(EngineNamed(d, names[i]), names[i] in d.advisory, replies(i))
  {
    if names == [] || exists n :: n in names && !Available(d, n) then Err(())
    else
      assert forall i :: 0 <= i < |names| ==> Available(d, names[i]);
      Ok(seq(|names|, i requires 0 <= i < |names| && Available(d, names[i]) =>
        ResultOf(EngineNamed(d, names[i]), names[i] in d.advisory, replies(i))))
  }

  /** `run_scanners` as a run: each engine by itself, its exceptions kept to itself. Only
      an engine that cannot be built, or an empty selection, ends the run. */
  method RunEach(d: Deployment, names: seq<string>, replies: nat -> Reply) returns (r: Result<seq<ScannerResult>, ()>)
    ensures r == RunScanners(d, names, replies)
  {
    if names == [] {
      return Err(());
    }
    var results: seq<ScannerResult> := [];
    for i := 0 to |names|
      invariant |results| == i && forall j :: 0 <= j < i ==> Available(d, names[j])
      invariant forall j :: 0 <= j < i ==>
        results[j] == ResultOf(EngineNamed(d, names[j]), names[j] in d.advisory, replies(j))
    {
      if !Available(d, names[i]) {
        return Err(());
      }
      var engine := EngineNamed(d, names[i]);
      var kind, reason, location;
      match Scan(replies(i)) {
        case Scanned(verdict) => kind, reason, location := verdict.kind, verdict.reason, verdict.location;
        case Failed => kind, reason, location := Error, Some("failed"), None;
        case Crashed => kind, reason, location := Error, Some("failed"), None;
      }
      results := results +
        [ScannerResult(engine.name, engine.category, kind, reason, None, location, engine.scored,
                       names[i] in d.advisory)];
    }
    assert forall n :: n in names ==> Available(d, n);
    assert results == RunScanners(d, names, replies).value;
    r := Ok(results);
  }

  /** Every engine selected in the `i`-th one's category is advisory. */
  predicate OwnCategoryAdvisory(d: Deployment, names: seq<string>, i: nat)
    requires i < |names| && forall n :: n in names ==> Available(d, n)
  {
    forall j :: 0 <= j < |names| && TraitsOf(d, names[j]).category == TraitsOf(d, names[i]).category ==>
      names[j] in d.advisory
  }

  /** An engine's result decides its category in the report exactly when the engine is
      not advisory, or every engine selected in that category is. */
  lemma DecidesReportExactly(d: Deployment, names: seq<string>, replies: nat -> Reply, i: nat)
    requires RunScanners(d, names, replies).Ok? && i < |names|
    ensures var results := RunScanners(d, names, replies).value;
      results[i] in Deciding(InCategory(results, results[i].category)) <==>
        names[i] !in d.advisory ||
        OwnCategoryAdvisory(d, names, i)
  {
    hide ResultOf;
    var results := RunScanners(d, names, replies).value;
    var group := InCategory(results, results[i].category);
    assert results[i] in group;
    SelectionsNonEmpty(group);
    forall j | 0 <= j < |names| && TraitsOf(d, names[j]).category == TraitsOf(d, names[i]).category
      ensures results[j] in group
    {
      assert results[j] in results;
    }
    if !AllAdvisory(group) {
      var r :| r in group && !r.advisory;
      var j :| 0 <= j < |results| && results[j] == r;
      assert names[j] !in d.advisory;
    }
  }

  /** The request check is exact when the selection lies in one category: past the
      ceiling, passing it means clamav decides nothing. */
  lemma SizeCapCheckExactOnOneCategory(d: Deployment, names: seq<string>, replies: nat -> Reply, i: nat, cap: int)
    requires RunScanners(d, names, replies).Ok? && i < |names| && names[i] == "clamav"
    requires cap > CLAMAV_MAX_FILE_BYTES
    requires forall j :: 0 <= j < |names| ==> TraitsOf(d, names[j]).category == TraitsOf(d, names[i]).category
    ensures var results := RunScanners(d, names, replies).value;
      SizeCapDecidable(d.advisory, names, cap) <==> results[i] !in Deciding(InCategory(results, results[i].category))
  {
    DecidesReportExactly(d, names, replies, i);
    DecidesExactly(d.advisory, names, "clamav");
    if forall n :: n in names ==> n in d.advisory {
    } else {
      var n :| n in names && n !in d.advisory;
      var j :| 0 <= j < |names| && names[j] == n;
    }
  }

  /** Across categories it is not: past the ceiling, a selection that passes leaves
      clamav deciding exactly when clamav is advisory, some engine of another category
      is not, and every engine of clamav's own category is. */
  lemma SizeCapGap(d: Deployment, names: seq<string>, replies: nat -> Reply, i: nat, cap: int)
    requires RunScanners(d, names, replies).Ok? && i < |names| && names[i] == "clamav"
    requires cap > CLAMAV_MAX_FILE_BYTES
    ensures var results := RunScanners(d, names, replies).value;
      SizeCapDecidable(d.advisory, names, cap) && results[i] in Deciding(InCategory(results, results[i].category)) <==>
        && (exists n :: n in names && n !in d.advisory)
        && OwnCategoryAdvisory(d, names, i)
  {
    DecidesReportExactly(d, names, replies, i);
    DecidesExactly(d.advisory, names, "clamav");
    if OwnCategoryAdvisory(d, names, i) {
      assert names[i] in d.advisory;
    }
  }

  /** A deployment with an advisory clamav left out of its default selection. */
  function GapDeployment(cap: int): Deployment {
    Deployment(map["clamav" := Some(Traits("malware", false)),
                   "exav" := Some(Traits("malware", false)),
                   "nudenet" := Some(Traits("nsfw", true))],
               map["malware" := ["exav"], "nsfw" := ["nudenet"]], ["malware"], {"clamav"}, cap, 0)
  }

  lemma GapDeploymentBoots(cap: int)
    ensures ValidRegistry(GapDeployment(cap))
  {
    var d := GapDeployment(cap);
    assert ValidCategory(d, "malware") && ValidCategory(d, "nsfw");
    DecidesExactly(d.advisory, ["exav"], "clamav");
    DecidesExactly(d.advisory, ["nudenet"], "clamav");
    hide ValidCategory, DecidingScanners;
    assert forall c :: c in d.categoryMap ==> c == "malware" || c == "nsfw";
  }

  lemma GapSelectionResolves(cap: int)
    ensures Resolve(GapDeployment(cap), [], ["clamav", "nudenet"]) == Ok(["clamav", "nudenet"])
  {
    var names := ["clamav", "nudenet"];
    assert names[..1] == ["clamav"] && ["clamav"][..0] == [];
    assert Dedupe([]) == [] && Dedupe(["clamav"]) == ["clamav"] && Dedupe(names) == names;
    assert Expand(GapDeployment(cap), []) + names == names;
  }

  /** Such a selection exists: an advisory clamav next to an engine of another axis,
      on a deployment that boots. */
  lemma SizeCapGapExists(cap: int, replies: nat -> Reply)
    requires cap > CLAMAV_MAX_FILE_BYTES
    ensures var d, names := GapDeployment(cap), ["clamav", "nudenet"];
      var r := RunScanners(d, names, replies);
      && ValidRegistry(d) && d.maxUrlSize == cap
      && Resolve(d, [], names) == Ok(names) && SizeCapDecidable(d.advisory, names, cap)
      && r.Ok? && r.value[0].scanner == "clamav" && r.value[0] in Deciding(InCategory(r.value, r.value[0].category))
  {
    GapDeploymentBoots(cap);
    GapSelectionResolves(cap);
    var d, names := GapDeployment(cap), ["clamav", "nudenet"];
    hide Resolve, ValidRegistry, Deciding, InCategory, ResultOf;
    assert names[1] in names && names[1] !in d.advisory;
    SizeCapGap(d, names, replies, 0, cap);
  }

  // ----- Fail closed, end to end

  /** No engine of the category named a threat, and those that decide it said it is clean. */
  ghost predicate Affirmed(d: Deployment, names: seq<string>, replies: nat -> Reply, category: string)
    requires RunScanners(d, names, replies).Ok?
  {
    var results := RunScanners(d, names, replies).value;
    forall i :: 0 <= i < |names| && results[i].category == category ==>
      && !NamesAThreat(replies(i))
      && (results[i] in Deciding(InCategory(results, category)) ==> Affirmative(replies(i)))
  }

  /** Every engine selected in the category declares itself scored. */
  predicate ScoredAxis(d: Deployment, names: seq<string>, category: string)
    requires forall n :: n in names ==> Available(d, n)
  {
    forall n :: n in names && TraitsOf(d, n).category == category ==> TraitsOf(d, n).scored
  }

  /** Some engine selected in the category named a threat in its raw reply. */
  ghost predicate ThreatNamed(d: Deployment, names: seq<string>, replies: nat -> Reply, category: string)
    requires forall n :: n in names ==> Available(d, n)
  {
    exists i :: 0 <= i < |names| && TraitsOf(d, names[i]).category == category && NamesAThreat(replies(i))
  }

  /** All who decide the category said something definite: affirmed, or named a threat. */
  ghost predicate DecidersSpoke(d: Deployment, names: seq<string>, replies: nat -> Reply, category: string)
    requires RunScanners(d, names, replies).Ok?
  {
    var results := RunScanners(d, names, replies).value;
    forall i :: 0 <= i < |names| && results[i] in Deciding(InCategory(results, category)) ==>
      Affirmative(replies(i)) || NamesAThreat(replies(i))
  }

  /** The members of a category's group, by position. */
  lemma GroupByPosition(d: Deployment, names: seq<string>, replies: nat -> Reply, category: string)
    requires RunScanners(d, names, replies).Ok?
    ensures var results := RunScanners(d, names, replies).value;
      var group := InCategory(results, category);
      && (forall i :: 0 <= i < |names| ==> (results[i] in group <==> TraitsOf(d, names[i]).category == category))
      && (forall r :: r in group ==> exists i :: 0 <= i < |names| && results[i] == r)
      && (group != [] ==> (AllScored(group) <==> ScoredAxis(d, names, category)))
  {
    hide ResultOf;
    var results := RunScanners(d, names, replies).value;
    var group := InCategory(results, category);
    forall i | 0 <= i < |names| ensures results[i] in results && names[i] in names {}
    forall n | n in names && TraitsOf(d, n).category == category
      ensures AllScored(group) ==> TraitsOf(d, n).scored
    {
      var i :| 0 <= i < |names| && names[i] == n;
      assert results[i] in group;
    }
  }

  /** What the raw replies say about the group, all three backends alike. */
  lemma GroupSays(d: Deployment, names: seq<string>, replies: nat -> Reply, category: string)
    requires RunScanners(d, names, replies).Ok?
    ensures var group := InCategory(RunScanners(d, names, replies).value, category);
      && (Detected(group) <==> ThreatNamed(d, names, replies, category))
      && !HasKind(group, Flagged)
      && (!HasKind(Deciding(group), Error) && !HasKind(Deciding(group), Partial) <==>
            DecidersSpoke(d, names, replies, category))
      && (Affirmed(d, names, replies, category) <==>
            !ThreatNamed(d, names, replies, category) && DecidersSpoke(d, names, replies, category))
  {
    hide ResultOf, Affirmative, NamesAThreat, Deciding, InCategory;
    GroupByPosition(d, names, replies, category);
    var results := RunScanners(d, names, replies).value;
    var group := InCategory(results, category);
    forall i | 0 <= i < |names|
      ensures results[i].kind == Clean <==> Affirmative(replies(i))
      ensures results[i].kind.Detects() <==> NamesAThreat(replies(i))
      ensures results[i].kind != Flagged
    {
      ClassificationExact(EngineNamed(d, names[i]), names[i] in d.advisory, replies(i));
    }
    DecidingIsPart(group);
  }

  lemma DecidingIsPart(group: seq<ScannerResult>)
    ensures forall r :: r in Deciding(group) ==> r in group
  {
  }

  /** A category reads clean exactly when every engine that decides it affirmed in its
      raw reply that it read the file and found nothing, and no engine of it, advisory
      included, named anything; for every reply, exception and crash. On an axis whose
      engines are all scored, named threats go unheard: there it reads clean exactly
      when every deciding engine said something definite, whichever of the two. */
  lemma CleanExactly(d: Deployment, names: seq<string>, replies: nat -> Reply, category: string)
    requires RunScanners(d, names, replies).Ok?
    requires category in Categories(RunScanners(d, names, replies).value)
    ensures VerdictsOf(RunScanners(d, names, replies).value)[category].kind == Clean <==>
      if ScoredAxis(d, names, category) then DecidersSpoke(d, names, replies, category)
      else Affirmed(d, names, replies, category)
  {
    var results := RunScanners(d, names, replies).value;
    var group := GroupOf(results, category);
    KindOfReduce(group);
    RuleAgrees(group);
    hide Reduce, Deciding, InCategory, ResultOf;
    GroupByPosition(d, names, replies, category);
    GroupSays(d, names, replies, category);
  }

  /** A selected engine that decides the category in its report. */
  ghost predicate DecidesCategory(d: Deployment, names: seq<string>, i: nat, category: string)
    requires i < |names| && forall n :: n in names ==> Available(d, n)
  {
    TraitsOf(d, names[i]).category == category && (names[i] !in d.advisory || OwnCategoryAdvisory(d, names, i))
  }

  /** Every word of a discrete axis, by the raw replies: malware if any engine named a
      threat; else error if one that decides raised; else partial if one that decides did
      not affirm; else clean. Never flagged, which no shipped backend says. */
  lemma VerdictExactly(d: Deployment, names: seq<string>, replies: nat -> Reply, category: string)
    requires RunScanners(d, names, replies).Ok?
    requires category in Categories(RunScanners(d, names, replies).value) && !ScoredAxis(d, names, category)
    ensures VerdictsOf(RunScanners(d, names, replies).value)[category].kind ==
      if ThreatNamed(d, names, replies, category) then Malware
      else if exists i :: 0 <= i < |names| && DecidesCategory(d, names, i, category) && !Scan(replies(i)).Scanned?
        then Error
      else if exists i :: 0 <= i < |names| && DecidesCategory(d, names, i, category) && !Affirmative(replies(i))
        then Partial
      else Clean
  {
    var results := RunScanners(d, names, replies).value;
    var group := GroupOf(results, category);
    KindOfReduce(group);
    RuleAgrees(group);
    hide Reduce, Deciding, InCategory, ResultOf, Affirmative, Scan, NamesAThreat;
    GroupByPosition(d, names, replies, category);
    GroupSays(d, names, replies, category);
    DecidersByPosition(d, names, replies, category);
  }

  /** The deciding results of a group, by position, and what their raw replies were. */
  lemma DecidersByPosition(d: Deployment, names: seq<string>, replies: nat -> Reply, category: string)
    requires RunScanners(d, names, replies).Ok?
    ensures var results := RunScanners(d, names, replies).value;
      var deciding := Deciding(InCategory(results, category));
      && (HasKind(deciding, Error) <==>
            exists i :: 0 <= i < |names| && DecidesCategory(d, names, i, category) && !Scan(replies(i)).Scanned?)
      && (!ThreatNamed(d, names, replies, category) ==>
            (HasKind(deciding, Error) || HasKind(deciding, Partial) <==>
               exists i :: 0 <= i < |names| && DecidesCategory(d, names, i, category) && !Affirmative(replies(i))))
  {
    var results := RunScanners(d, names, replies).value;
    var group := InCategory(results, category);
    DecidingIsPart(group);
    GroupByPosition(d, names, replies, category);
    hide Deciding, InCategory, ResultOf, Affirmative, Scan, NamesAThreat;
    forall i | 0 <= i < |names|
      ensures results[i].kind == Error <==> !Scan(replies(i)).Scanned?
      ensures results[i].kind == Clean <==> Affirmative(replies(i))
      ensures results[i].kind.Detects() <==> NamesAThreat(replies(i))
      ensures results[i] in Deciding(group) <==> DecidesCategory(d, names, i, category)
    {
      ClassificationExact(EngineNamed(d, names[i]), names[i] in d.advisory, replies(i));
      DecidesReportExactly(d, names, replies, i);
    }
    forall r | r in Deciding(group) ensures exists i :: 0 <= i < |names| && results[i] == r {}
  }

  /** Fail closed, and exactly where not: a clean category has been affirmed by its raw
      replies, unless it is a scored axis on which some engine named a threat. No shipped
      engine is scored. */
  lemma CleanMeansAffirmed(d: Deployment, names: seq<string>, replies: nat -> Reply, category: string)
    requires RunScanners(d, names, replies).Ok?
    ensures var results := RunScanners(d, names, replies).value;
      category in Categories(results) && VerdictsOf(results)[category].kind == Clean ==>
        (Affirmed(d, names, replies, category) <==>
         !(ScoredAxis(d, names, category) && ThreatNamed(d, names, replies, category)))
  {
    hide ScoredAxis, ThreatNamed, DecidersSpoke, Affirmed, VerdictsOf, Categories;
    if category in Categories(RunScanners(d, names, replies).value) {
      CleanExactly(d, names, replies, category);
      GroupSays(d, names, replies, category);
    }
  }

  /** That axis exists: a threat named by the one engine of a scored category is reported
      clean. */
  lemma ScoredThreatReadsClean(d: Deployment, name: string, replies: nat -> Reply)
    requires Available(d, name) && TraitsOf(d, name).scored && NamesAThreat(replies(0))
    ensures var results := RunScanners(d, [name], replies).value;
      var category := TraitsOf(d, name).category;
      category in Categories(results) && VerdictsOf(results)[category].kind == Clean
  {
    var results := RunScanners(d, [name], replies).value;
    assert results[0] in results;
    hide ResultOf, NamesAThreat, VerdictsOf;
    CleanExactly(d, [name], replies, TraitsOf(d, name).category);
  }

  /** The same for a v1 caller: `False` on an axis is never anything less. */
  lemma FalseMeansAffirmed(d: Deployment, names: seq<string>, replies: nat -> Reply, category: string,
                           envelope: Payload)
    requires RunScanners(d, names, replies).Ok?
    ensures var results := RunScanners(d, names, replies).value;
      category in Categories(results) && Get(ToV1(envelope + ReportDict(results)), category) == Bool(false) ==>
        (Affirmed(d, names, replies, category) <==>
         !(ScoredAxis(d, names, category) && ThreatNamed(d, names, replies, category)))
  {
    hide ReportDict, ToV1, Affirmed, Reduce, GroupOf, NamesAThreat;
    if category in Categories(RunScanners(d, names, replies).value) {
      V1Axis(envelope, RunScanners(d, names, replies).value, category);
      CleanMeansAffirmed(d, names, replies, category);
    }
  }
}
