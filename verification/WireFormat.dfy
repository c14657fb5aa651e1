/** Payloads and their two versions: v2, as the service builds them, and v1, a downgrade
    of that. */
module WireFormat {
  import opened Wrappers
  import opened Report

  /** A JSON-like value: what payloads are made of. */
  datatype Value = Null | Bool(b: bool) | Num(x: real) | Str(s: string)
                 | List(items: seq<Value>) | Dict(entries: map<string, Value>)

  type Payload = map<string, Value>

  const V1: string := "v1.0"
  const V2: string := "v2.0"

  /** The version of a route. */
  function OfPath(path: string): (version: string)
    ensures version == "v1.0" <==> "/api/v1.0/" <= path
    ensures version == "v1.0" || version == "v2.0"
  {
    if "/api/v2.0/" <= path then
      assert path[6] == '2';
      V2
    else if "/api/v1.0/" <= path then V1
    else V2
  }

  function Get(d: Payload, key: string): Value {
    if key in d then d[key] else Null
  }

  predicate Truthy(v: Value) {
    match v
    case Null => false
    case Bool(b) => b
    case Num(x) => x != 0.0
    case Str(s) => s != ""
    case List(items) => items != []
    case Dict(entries) => entries != map[]
  }

  /** What counts as false. */
  lemma FalsyExactly(v: Value)
    ensures !Truthy(v) <==> v in {Null, Bool(false), Num(0.0), Str(""), List([]), Dict(map[])}
  {
  }

  /** One category's verdict as a v1 scalar. */
  function Scalar(verdict: Payload): Value {
    var kind, score := Get(verdict, "kind"), Get(verdict, "score");
    if kind == Str("malware") then Bool(true)
    else if kind == Str("flagged") then (if score != Null then score else Bool(true))
    else if kind == Str("clean") then (if score != Null then score else Bool(false))
    else Null
  }

  function SetDefault(d: Payload, key: string, v: Value): Payload {
    if key in d then d else d[key := v]
  }

  /** The categories a payload reports on. */
  function VerdictEntries(payload: Payload): Payload {
    if "verdicts" in payload && payload["verdicts"].Dict? then payload["verdicts"].entries else map[]
  }

  predicate ReportsOn(payload: Payload, category: string) {
    category in VerdictEntries(payload) && VerdictEntries(payload)[category].Dict?
  }

  function VerdictFor(payload: Payload, category: string): Payload
    requires ReportsOn(payload, category)
  {
    VerdictEntries(payload)[category].entries
  }

  /** The malware axis could not be read: the v1 `None` that needs qualifying. */
  predicate MalwareUnanswered(payload: Payload) {
    ReportsOn(payload, "malware") && Get(VerdictFor(payload, "malware"), "kind") in {Str("partial"), Str("error")}
  }

  /** Permanent for a file that could not be read in full, else retryable. */
  function QualifierFor(malware: Payload): Value {
    Str(if Get(malware, "kind") == Str("partial") then "file" else "transient")
  }

  /** What the downgrade must produce, key by key. */
  ghost predicate IsDowngrade(payload: Payload, out: Payload) {
    && (forall c :: ReportsOn(payload, c) ==> c in out && out[c] == Scalar(VerdictFor(payload, c)))
    && (forall k :: k in payload && k != "verdicts" && !ReportsOn(payload, k) ==> k in out && out[k] == payload[k])
    && (MalwareUnanswered(payload) ==> "error_kind" in out)
    && (forall k :: k in out && !ReportsOn(payload, k) && (k !in payload || k == "verdicts") ==>
          AddedByDowngrade(payload, k, out[k]))
    && (MalwareUnanswered(payload) && Truthy(Get(VerdictFor(payload, "malware"), "reason")) ==> "error" in out)
  }

  /** The qualifier a null malware axis brings along, where the envelope has none. */
  predicate AddedByDowngrade(payload: Payload, key: string, v: Value) {
    MalwareUnanswered(payload) &&
    var malware := VerdictFor(payload, "malware");
    || (key == "error_kind" && v == QualifierFor(malware))
    || (key == "error" && Truthy(Get(malware, "reason")) && v == malware["reason"])
  }

  /** The downgrade as one expression. */
  function ToV1(payload: Payload): Payload {
    if MalwareUnanswered(payload) then Qualified(Merged(payload), VerdictFor(payload, "malware")) else Merged(payload)
  }

  /** The envelope with the scalars over it. */
  function Merged(payload: Payload): Payload {
    var verdicts := VerdictEntries(payload);
    (payload - {"verdicts"}) + map c | c in verdicts && verdicts[c].Dict? :: Scalar(verdicts[c].entries)
  }

  function Qualified(out: Payload, malware: Payload): Payload {
    var kinded := SetDefault(out, "error_kind", QualifierFor(malware));
    if Truthy(Get(malware, "reason")) then SetDefault(kinded, "error", Get(malware, "reason")) else kinded
  }

  lemma MergedKeys(payload: Payload, k: string)
    ensures k in Merged(payload) <==> ReportsOn(payload, k) || (k in payload && k != "verdicts")
    ensures ReportsOn(payload, k) ==> Merged(payload)[k] == Scalar(VerdictFor(payload, k))
    ensures k in Merged(payload) && !ReportsOn(payload, k) ==> Merged(payload)[k] == payload[k]
  {
  }

  /** Qualifying adds its two keys where they are missing and changes nothing else. */
  lemma QualifiedAt(out: Payload, malware: Payload, k: string)
    ensures var q := Qualified(out, malware);
      && (k in q <==> k in out || k == "error_kind" || (k == "error" && Truthy(Get(malware, "reason"))))
      && (k in out ==> q[k] == out[k])
      && (k !in out && k == "error_kind" ==> q[k] == QualifierFor(malware))
      && (k !in out && k == "error" && Truthy(Get(malware, "reason")) ==> q[k] == Get(malware, "reason"))
  {
  }

  lemma ToV1IsDowngrade(payload: Payload)
    ensures IsDowngrade(payload, ToV1(payload))
  {
    var v1 := ToV1(payload);
    if MalwareUnanswered(payload) {
      var malware := VerdictFor(payload, "malware");
      QualifiedAt(Merged(payload), malware, "error_kind");
      QualifiedAt(Merged(payload), malware, "error");
      forall k
        ensures ReportsOn(payload, k) ==> k in v1 && v1[k] == Scalar(VerdictFor(payload, k))
        ensures k in payload && k != "verdicts" && !ReportsOn(payload, k) ==> k in v1 && v1[k] == payload[k]
        ensures k in v1 && !ReportsOn(payload, k) && (k !in payload || k == "verdicts") ==>
          AddedByDowngrade(payload, k, v1[k])
      {
        MergedKeys(payload, k);
        QualifiedAt(Merged(payload), malware, k);
        hide Merged, Qualified, Scalar;
      }
    } else {
      hide Scalar;
    }
  }

  /** The expression and the key-by-key description are the same thing. */
  lemma DowngradeIsToV1(payload: Payload, out: Payload)
    ensures IsDowngrade(payload, out) <==> out == ToV1(payload)
  {
    hide ToV1, Scalar;
    ToV1IsDowngrade(payload);
    var v1 := ToV1(payload);
    if IsDowngrade(payload, out) {
      forall k | k in out || k in v1
        ensures k in out && k in v1 && out[k] == v1[k]
      {
        if !ReportsOn(payload, k) && !(k in payload && k != "verdicts") {
          assert k in out ==> AddedByDowngrade(payload, k, out[k]);
          assert k in v1 ==> AddedByDowngrade(payload, k, v1[k]);
        }
      }
      assert out == v1;
    }
  }

  /** Reading one key of the downgrade. */
  lemma ToV1At(payload: Payload, k: string)
    ensures ReportsOn(payload, k) ==> k in ToV1(payload) && ToV1(payload)[k] == Scalar(VerdictFor(payload, k))
    ensures !ReportsOn(payload, k) && k in payload && k != "verdicts" ==>
      k in ToV1(payload) && ToV1(payload)[k] == payload[k]
    ensures k in ToV1(payload) && !ReportsOn(payload, k) && (k !in payload || k == "verdicts") ==>
      AddedByDowngrade(payload, k, ToV1(payload)[k])
  {
    ToV1IsDowngrade(payload);
  }

  /** `to_v1` as written: copy, loop over the verdicts, qualify. */
  method Downgrade(payload: Payload) returns (out: Payload)
    ensures out == ToV1(payload)
  {
    out := payload - {"verdicts"};
    if "verdicts" !in payload || !payload["verdicts"].Dict? {
      return;
    }
    var verdicts := payload["verdicts"].entries;
    var todo := verdicts.Keys;
    ghost var base := out;
    while todo != {}
      invariant todo <= verdicts.Keys
      invariant forall c :: c in verdicts && c !in todo && verdicts[c].Dict? ==>
        c in out && out[c] == Scalar(verdicts[c].entries)
      invariant forall k :: k !in verdicts || k in todo || !verdicts[k].Dict? ==>
        (k in out <==> k in base) && (k in base ==> out[k] == base[k])
      decreases todo
    {
      var category :| category in todo;
      if verdicts[category].Dict? {
        out := out[category := Scalar(verdicts[category].entries)];
      }
      todo := todo - {category};
    }
    assert out == Merged(payload);
    var malware := Get(verdicts, "malware");
    if malware.Dict? && Get(malware.entries, "kind") in {Str("partial"), Str("error")} {
      out := SetDefault(out, "error_kind", QualifierFor(malware.entries));
      if Truthy(Get(malware.entries, "reason")) {
        out := SetDefault(out, "error", malware.entries["reason"]);
      }
    }
  }

  /** A payload in the shape of a version, stamped with it. */
  function Serialize(payload: Payload, version: string): Payload {
    (if version == V1 then ToV1(payload) else payload)["api_version" := Str(version)]
  }

  /** What is served keeps what the record says: every key in v2, and in v1 every key that
      is no reported category's; `verdicts` has its scalars in v1. The version is stamped. */
  lemma ServedTells(payload: Payload, version: string, key: string)
    requires key != "api_version"
    ensures version != "v1.0" ==>
      (key in Serialize(payload, version) <==> key in payload) &&
      (key in payload ==> Serialize(payload, version)[key] == payload[key])
    ensures version == "v1.0" && key in payload && key != "verdicts" && !ReportsOn(payload, key) ==>
      key in Serialize(payload, version) && Serialize(payload, version)[key] == payload[key]
    ensures "api_version" in Serialize(payload, version) && Serialize(payload, version)["api_version"] == Str(version)
  {
    ToV1At(payload, key);
  }

  /** A body of this version tells all a record says, but for what v1 says otherwise. */
  ghost predicate TellsRecord(body: Payload, record: Payload, version: string) {
    && "api_version" in body && body["api_version"] == Str(version)
    && forall key :: key in record && key != "api_version" ==>
         (version == "v1.0" ==> key != "verdicts" && !ReportsOn(record, key)) ==>
           key in body && body[key] == record[key]
  }

  lemma ServedTellsAll(payload: Payload, version: string)
    ensures TellsRecord(Serialize(payload, version), payload, version)
  {
    assert "api_version" in Serialize(payload, version);
    hide Serialize, ReportsOn;
    ServedTells(payload, version, "");
    forall key | key != "api_version" { ServedTells(payload, version, key); }
  }

  // ----- Laws of the two views

  /** The views cannot disagree: the v1 body is a function of the v2 body. */
  lemma V1IsAFunctionOfV2(payload: Payload)
    ensures Serialize(Serialize(payload, V2), V1) == Serialize(payload, V1)
  {
    var stamped := Serialize(payload, V2);
    assert VerdictEntries(stamped) == VerdictEntries(payload);
    forall k | k != "api_version"
      ensures k in Merged(stamped) <==> k in Merged(payload)
      ensures k in Merged(payload) ==> Merged(stamped)[k] == Merged(payload)[k]
    {
      MergedKeys(stamped, k);
      MergedKeys(payload, k);
    }
    hide Merged;
    QualifiedOffKey(Merged(stamped), Merged(payload), "api_version", Str(V1),
      if MalwareUnanswered(payload) then VerdictFor(payload, "malware") else map[]);
  }

  /** Qualifying commutes with forgetting an unrelated key. */
  lemma QualifiedOffKey(a: Payload, b: Payload, key: string, v: Value, malware: Payload)
    requires key != "error_kind" && key != "error"
    requires forall k :: k != key ==> (k in a <==> k in b) && (k in a ==> a[k] == b[k])
    ensures Qualified(a, malware)[key := v] == Qualified(b, malware)[key := v]
    ensures a[key := v] == b[key := v]
  {
  }

  /** Scores are numbers, as in every payload a report produces. */
  ghost predicate NumericScores(payload: Payload) {
    forall c :: ReportsOn(payload, c) ==> var score := Get(VerdictFor(payload, c), "score"); score.Num? || score.Null?
  }

  /** A second downgrade changes nothing, exactly unless a category is itself called
      `verdicts`. */
  lemma DowngradeIdempotent(payload: Payload)
    requires NumericScores(payload)
    ensures ToV1(ToV1(payload)) == ToV1(payload) <==> !ReportsOn(payload, "verdicts")
  {
    var once := ToV1(payload);
    ToV1At(payload, "verdicts");
    if ReportsOn(payload, "verdicts") {
      assert !once["verdicts"].Dict?;
      ToV1At(once, "verdicts");
      assert "verdicts" !in ToV1(once);
    } else {
      assert "verdicts" !in once;
      assert VerdictEntries(once) == map[];
      DowngradeIsToV1(once, once);
    }
  }

  /** The envelope wins where it speaks, exactly unless a category bears the same name
      and says something else. */
  lemma EnvelopeKept(payload: Payload, key: string)
    requires key in payload && key != "verdicts"
    ensures key in ToV1(payload)
    ensures ToV1(payload)[key] == payload[key] <==>
      !ReportsOn(payload, key) || Scalar(VerdictFor(payload, key)) == payload[key]
  {
    ToV1At(payload, key);
  }

  // ----- Reports as payloads

  function Word(kind: Kind): (w: string)
  {
    match kind
    case Clean => "clean"
    case Malware => "malware"
    case Flagged => "flagged"
    case Partial => "partial"
    case Error => "error"
  }

  function WithText(d: Payload, key: string, text: Option<string>): Payload {
    if text.Some? then d[key := Str(text.value)] else d
  }

  function WithScore(d: Payload, score: Option<real>): Payload {
    if score.Some? then d["score" := Num(score.value)] else d
  }

  /** CategoryVerdict.as_dict */
  function VerdictDict(v: CategoryVerdict): (d: Payload)
    ensures Get(d, "kind") == Str(Word(v.kind))
    ensures Get(d, "score") == if v.score.Some? then Num(v.score.value) else Null
    ensures Get(d, "reason") == if v.reason.Some? then Str(v.reason.value) else Null
  {
    WithText(WithText(WithScore(map["kind" := Str(Word(v.kind))], v.score), "reason", v.reason), "location", v.location)
  }

  /** ScannerResult.as_dict, the duration left out. */
  function ResultDict(r: ScannerResult): Payload {
    var head := map["scanner" := Str(r.scanner), "category" := Str(r.category), "kind" := Str(Word(r.kind))];
    var flagged := if r.advisory then head["advisory" := Bool(true)] else head;
    WithText(WithText(WithScore(flagged, r.score), "reason", r.reason), "location", r.location)
  }

  function VerdictDicts(results: seq<ScannerResult>): Payload {
    var verdicts := VerdictsOf(results);
    map c | c in verdicts :: Dict(VerdictDict(verdicts[c]))
  }

  /** ScanReport.as_dict */
  function ReportDict(results: seq<ScannerResult>): Payload {
    map["verdicts" := Dict(VerdictDicts(results)),
        "scanners" := List(seq(|results|, i requires 0 <= i < |results| => Dict(ResultDict(results[i]))))]
  }

  /** The v1 scalar of a category verdict. */
  function Axis(v: CategoryVerdict): Value {
    match v.kind
    case Malware => Bool(true)
    case Flagged => if v.score.Some? then Num(v.score.value) else Bool(true)
    case Clean => if v.score.Some? then Num(v.score.value) else Bool(false)
    case _ => Null
  }

  lemma ScalarIsAxis(v: CategoryVerdict)
    ensures Scalar(VerdictDict(v)) == Axis(v)
  {
  }

  lemma ReportKeys(envelope: Payload, results: seq<ScannerResult>, key: string)
    ensures var payload := envelope + ReportDict(results);
      && (key in payload <==> key in envelope || key == "verdicts" || key == "scanners")
      && (key in payload && key != "verdicts" && key != "scanners" ==> payload[key] == envelope[key])
      && VerdictEntries(payload) == VerdictDicts(results)
  {
    hide VerdictDicts, ResultDict;
  }

  lemma VerdictDictsAt(results: seq<ScannerResult>, category: string)
    ensures category in VerdictDicts(results) <==> category in Categories(results)
    ensures category in Categories(results) ==>
      VerdictDicts(results)[category] == Dict(VerdictDict(VerdictsOf(results)[category]))
  {
    hide VerdictDict, Reduce, Categories, GroupOf;
  }

  /** A report's payload reports on exactly its categories. */
  lemma ReportedCategories(envelope: Payload, results: seq<ScannerResult>, category: string)
    ensures var payload := envelope + ReportDict(results);
      && (ReportsOn(payload, category) <==> category in Categories(results))
      && (category in Categories(results) ==>
            VerdictFor(payload, category) == VerdictDict(VerdictsOf(results)[category]))
  {
    hide VerdictDict, VerdictDicts, ReportDict, VerdictsOf;
    ReportKeys(envelope, results, category);
    VerdictDictsAt(results, category);
  }

  /** Every payload with a report in it has numbers for scores, so that its downgrade is
      idempotent exactly unless a category is called `verdicts`. */
  lemma ReportScoresNumeric(envelope: Payload, results: seq<ScannerResult>)
    ensures NumericScores(envelope + ReportDict(results))
  {
    hide ReportDict, VerdictsOf;
    forall c | ReportsOn(envelope + ReportDict(results), c)
      ensures var score := Get(VerdictFor(envelope + ReportDict(results), c), "score"); score.Num? || score.Null?
    {
      ReportedCategories(envelope, results, c);
    }
  }

  /** A verdict as it is served in v2: its word, and what else it has. */
  lemma VerdictServed(results: seq<ScannerResult>, category: string)
    requires category in Categories(results)
    ensures var served, v := VerdictDicts(results), VerdictsOf(results)[category];
      && category in served && served[category].Dict?
      && var d := served[category].entries;
      && Get(d, "kind") == Str(match v.kind case Clean => "clean" case Malware => "malware" case Flagged => "flagged"
                                            case Partial => "partial" case Error => "error")
      && Get(d, "score") == (if v.score.Some? then Num(v.score.value) else Null)
      && Get(d, "reason") == (if v.reason.Some? then Str(v.reason.value) else Null)
      && Get(d, "location") == (if v.location.Some? then Str(v.location.value) else Null)
  {
    VerdictDictsAt(results, category);
  }

  /** The breakdown: one entry per result, in order, telling the same of it. */
  lemma BreakdownServed(results: seq<ScannerResult>, i: nat)
    requires i < |results|
    ensures var r, list := results[i], ReportDict(results)["scanners"];
      && list.List? && |list.items| == |results| && list.items[i].Dict?
      && var d := list.items[i].entries;
      && Get(d, "scanner") == Str(r.scanner) && Get(d, "category") == Str(r.category)
      && Get(d, "kind") == Str(match r.kind case Clean => "clean" case Malware => "malware" case Flagged => "flagged"
                                            case Partial => "partial" case Error => "error")
      && Get(d, "advisory") == (if r.advisory then Bool(true) else Null)
      && Get(d, "score") == (if r.score.Some? then Num(r.score.value) else Null)
      && Get(d, "reason") == (if r.reason.Some? then Str(r.reason.value) else Null)
      && Get(d, "location") == (if r.location.Some? then Str(r.location.value) else Null)
  {
    hide VerdictDicts;
  }

  /** What a v1 caller reads on an axis is decided by the axis's verdict alone. */
  lemma V1Axis(envelope: Payload, results: seq<ScannerResult>, category: string)
    requires category in Categories(results)
    ensures var v1 := ToV1(envelope + ReportDict(results));
      && category in v1 && v1[category] == Axis(VerdictsOf(results)[category])
      && var v := VerdictsOf(results)[category];
      && (v.kind == Malware ==> v1[category] == Bool(true))
      && (v.kind == Flagged || v.kind == Clean ==>
            v1[category] == if v.score.Some? then Num(v.score.value) else Bool(v.kind == Flagged))
      && (v.kind == Partial || v.kind == Error ==> v1[category] == Null)
  {
    ReportedCategories(envelope, results, category);
    ToV1At(envelope + ReportDict(results), category);
    ScalarIsAxis(VerdictsOf(results)[category]);
  }

  /** A v1 `malware` of `None` in a report always comes with an `error_kind`, whatever the
      categories are called: the envelope's own if it has one, else permanent or retryable
      by the verdict; only a category that is itself called `error_kind` takes its place. */
  lemma NullMalwareIsQualified(envelope: Payload, results: seq<ScannerResult>)
    requires "malware" !in envelope && "verdicts" !in envelope
    ensures var v1 := ToV1(envelope + ReportDict(results));
      "malware" in v1 && v1["malware"] == Null ==>
        && "malware" in Categories(results)
        && "error_kind" in v1
        && v1["error_kind"] == (
             if "error_kind" in Categories(results) then Axis(VerdictsOf(results)["error_kind"])
             else if "error_kind" in envelope then envelope["error_kind"]
             else Str(if VerdictsOf(results)["malware"].kind == Partial then "file" else "transient"))
  {
    hide ReportDict, ToV1, Reduce, Scalar, MalwareUnanswered, Axis;
    var payload := envelope + ReportDict(results);
    ReportKeys(envelope, results, "malware");
    ReportKeys(envelope, results, "error_kind");
    ReportedCategories(envelope, results, "malware");
    ReportedCategories(envelope, results, "error_kind");
    NullOnlyFromReport(payload);
    if "malware" in Categories(results) {
      V1Axis(envelope, results, "malware");
      UnansweredAxis(payload, VerdictsOf(results)["malware"]);
      if "error_kind" in Categories(results) {
        V1Axis(envelope, results, "error_kind");
      } else {
        Qualifier(payload);
      }
    }
  }

  lemma NullOnlyFromReport(payload: Payload)
    requires "malware" !in payload
    ensures "malware" in ToV1(payload) ==> ReportsOn(payload, "malware")
  {
    ToV1At(payload, "malware");
  }

  lemma UnansweredAxis(payload: Payload, v: CategoryVerdict)
    requires ReportsOn(payload, "malware") && VerdictFor(payload, "malware") == VerdictDict(v)
    ensures MalwareUnanswered(payload) <==> Axis(v) == Null
    ensures MalwareUnanswered(payload) ==>
      QualifierFor(VerdictFor(payload, "malware")) == Str(if v.kind == Partial then "file" else "transient")
  {
    hide WithText, WithScore;
    assert Get(VerdictDict(v), "kind") == Str(Word(v.kind));
  }

  lemma Qualifier(payload: Payload)
    requires !ReportsOn(payload, "error_kind")
    ensures MalwareUnanswered(payload) ==>
      && "error_kind" in ToV1(payload)
      && ToV1(payload)["error_kind"] == (if "error_kind" in payload then payload["error_kind"]
           else QualifierFor(VerdictFor(payload, "malware")))
  {
    ToV1IsDowngrade(payload);
  }
}
