/** From an engine's raw reply to a scanner result: the three backends' classifiers
    and the isolation around them. */
module Backends {
  import opened Wrappers
  import opened Report
  import opened WireFormat

  datatype Verdict = Verdict(kind: Kind, reason: Option<string>, location: Option<string>)

  /** What `scan` does: returns a verdict, raises ScannerError, or raises anything else. */
  datatype Outcome = Scanned(verdict: Verdict) | Failed | Crashed

  function CleanVerdict(): Verdict { Verdict(Clean, None, None) }

  function PartialVerdict(tag: string): Verdict { Verdict(Partial, Some(tag), None) }

  // ----- clamd

  /** A clamd session: connection errors, a stream cut short, silence, any other
      exception, or a status line. */
  datatype ClamReply = ClamUnreachable | ClamStreamCut | ClamSilent | ClamRaised
                     | ClamLine(status: string, reason: Option<string>)

  const LIMIT_ALERT_PREFIX: string := "Heuristics.Limits.Exceeded"

  /** ASCII `str.lower`, which decides the hints below like the full one. */
  function Lower(s: string): string {
    seq(|s|, i requires 0 <= i < |s| => if 'A' <= s[i] <= 'Z' then (s[i] as int + 32) as char else s[i])
  }

  predicate Contains(text: string, hint: string) {
    exists i | 0 <= i <= |text| :: hint <= text[i..]
  }

  predicate IsTransient(reason: Option<string>) {
    reason.Some? &&
    var text := Lower(reason.value);
    || Contains(text, "allocate")
    || Contains(text, "time limit")
    || Contains(text, "timeout")
    || Contains(text, "no space")
  }

  function ClamScan(reply: ClamReply): Outcome {
    match reply
    case ClamUnreachable => Failed
    case ClamStreamCut => Failed
    case ClamSilent => Failed
    case ClamRaised => Crashed
    case ClamLine(status, reason) =>
      if status == "OK" then Scanned(CleanVerdict())
      else if status == "ERROR" then (if IsTransient(reason) then Failed else Scanned(PartialVerdict("UNSCANNABLE")))
      else if reason.Some? && LIMIT_ALERT_PREFIX <= reason.value then Scanned(PartialVerdict("LIMITS-EXCEEDED"))
      else Scanned(Verdict(Malware, reason, None))
  }

  // ----- exav

  /** An EXINSTREAM session: unreachable, any other exception, or a reply line with
      the JSON it parses to, if any. */
  datatype ExavReply = ExavUnreachable | ExavRaised | ExavLine(raw: string, json: Option<Value>)

  function Text(v: Value): Option<string> {
    if v.Str? then Some(v.s) else None
  }

  /** Python's `v or default` on a text. */
  function TextOr(v: Value, default: string): string {
    if v.Str? && v.s != "" then v.s else default
  }

  function ExavScan(reply: ExavReply): Outcome {
    match reply
    case ExavUnreachable => Failed
    case ExavRaised => Crashed
    case ExavLine(raw, json) =>
      if "UNKNOWN COMMAND" <= raw || json.None? then Failed
      else if !json.value.Dict? then Crashed
      else
        var data := json.value.entries;
        var status := Get(data, "status");
        if status == Str("OK") then Scanned(CleanVerdict())
        else if status == Str("FOUND") then
          Scanned(Verdict(Malware, Text(Get(data, "signature")), Text(Get(data, "location"))))
        else if status == Str("PARTIAL") then Scanned(PartialVerdict(TextOr(Get(data, "category"), "UNSCANNABLE")))
        else Failed
  }

  // ----- jcop

  /** A submit-and-poll: no finished analysis, a crash, or the finished content. */
  datatype JcopReply = JcopUnfinished | JcopRaised | JcopDone(content: Payload)

  const TOO_LARGE_CODE: real := 413.0

  function JcopScan(reply: JcopReply): Outcome {
    match reply
    case JcopUnfinished => Failed
    case JcopRaised => Crashed
    case JcopDone(content) =>
      var isMalware := Get(content, "is_malware");
      if isMalware == Bool(true) then Scanned(Verdict(Malware, Some(TextOr(Get(content, "error"), "malware")), None))
      else if isMalware == Bool(false) then Scanned(CleanVerdict())
      else if Get(content, "error_code") == Num(TOO_LARGE_CODE) then Scanned(PartialVerdict("LIMITS-EXCEEDED"))
      else Scanned(PartialVerdict("UNSCANNABLE"))
  }

  // ----- One engine

  datatype Reply = FileUnreadable | FromClam(clam: ClamReply) | FromExav(exav: ExavReply) | FromJcop(jcop: JcopReply)

  function Scan(reply: Reply): Outcome {
    match reply
    case FileUnreadable => Crashed
    case FromClam(r) => ClamScan(r)
    case FromExav(r) => ExavScan(r)
    case FromJcop(r) => JcopScan(r)
  }

  /** The engine said, in so many words, that it read the file and found nothing. */
  predicate Affirmative(reply: Reply) {
    match reply
    case FileUnreadable => false
    case FromClam(r) => r.ClamLine? && r.status == "OK"
    case FromExav(r) => r.ExavLine? && !("UNKNOWN COMMAND" <= r.raw) && r.json.Some? && r.json.value.Dict?
                        && Get(r.json.value.entries, "status") == Str("OK")
    case FromJcop(r) => r.JcopDone? && Get(r.content, "is_malware") == Bool(false)
  }

  /** The engine named something it found; a limit alert named like a signature is not that. */
  predicate NamesAThreat(reply: Reply) {
    match reply
    case FileUnreadable => false
    case FromClam(r) => r.ClamLine? && r.status != "OK" && r.status != "ERROR"
                        && !(r.reason.Some? && LIMIT_ALERT_PREFIX <= r.reason.value)
    case FromExav(r) => r.ExavLine? && !("UNKNOWN COMMAND" <= r.raw) && r.json.Some? && r.json.value.Dict?
                        && Get(r.json.value.entries, "status") == Str("FOUND")
    case FromJcop(r) => r.JcopDone? && Get(r.content, "is_malware") == Bool(true)
  }

  datatype Engine = Engine(name: string, category: string, scored: bool)

  /** One engine, isolated: whatever it raises becomes its own `error` result, and nothing
      else does. */
  function ResultOf(engine: Engine, advisory: bool, reply: Reply): (r: ScannerResult)
    ensures r.kind == Error <==> !Scan(reply).Scanned?
    ensures r.scanner == engine.name && r.category == engine.category
    ensures r.scored == engine.scored && r.advisory == advisory
  {
    match Scan(reply)
    case Scanned(v) =>
      ScannerResult(engine.name, engine.category, v.kind, v.reason, None, v.location, engine.scored, advisory)
    case _ =>
      ScannerResult(engine.name, engine.category, Error, Some("failed"), None, None, engine.scored, advisory)
  }

  /** A result is clean exactly when the raw reply affirmed it, a detection exactly
      when the raw reply named one; whatever else came back, or was raised, is
      `partial` or `error`. */
  lemma ClassificationExact(engine: Engine, advisory: bool, reply: Reply)
    ensures var r := ResultOf(engine, advisory, reply);
      && (r.kind == Clean <==> Affirmative(reply))
      && (r.kind.Detects() <==> NamesAThreat(reply))
      && r.kind != Flagged && r.score.None?
  {
  }

  /** clamd: a retry is called for exactly when there was no status line, or an ERROR
      with a transient reason. A status other than OK and ERROR is a permanent partial
      exactly when its reason is a limit alert of any name, and a detection otherwise. */
  lemma ClamRetriesExactly(reply: ClamReply)
    ensures !ClamScan(reply).Scanned? <==> !reply.ClamLine? || (reply.status == "ERROR" && IsTransient(reply.reason))
    ensures reply.ClamLine? && reply.status != "OK" && reply.status != "ERROR" ==>
      (ClamScan(reply).verdict.kind == Partial <==>
         exists alert :: reply.reason == Some("Heuristics.Limits.Exceeded" + alert))
  {
    if reply.ClamLine? && reply.reason.Some? && LIMIT_ALERT_PREFIX <= reply.reason.value {
      var alert := reply.reason.value[|LIMIT_ALERT_PREFIX|..];
      assert LIMIT_ALERT_PREFIX + alert == reply.reason.value;
    }
  }

  /** exav: a permanent partial exactly on PARTIAL; anything that is not OK, FOUND or
      PARTIAL in a JSON object is retried, a JSON reply that is no object included. */
  lemma ExavRetriesExactly(reply: ExavReply)
    ensures ExavScan(reply).Scanned? && ExavScan(reply).verdict.kind == Partial <==>
      ExavStatus(reply) == Str("PARTIAL")
    ensures !ExavScan(reply).Scanned? <==> ExavStatus(reply) !in {Str("OK"), Str("FOUND"), Str("PARTIAL")}
  {
  }

  /** The status an exav reply carries, Null when it carries none that counts. */
  function ExavStatus(reply: ExavReply): Value {
    if reply.ExavLine? && !("UNKNOWN COMMAND" <= reply.raw) && reply.json.Some? && reply.json.value.Dict?
    then Get(reply.json.value.entries, "status")
    else Null
  }

  /** jcop: a finished analysis is never retried, and is a permanent partial exactly when
      it does not say, as a boolean, whether the file is malware. */
  lemma JcopRetriesExactly(reply: JcopReply)
    ensures JcopScan(reply).Scanned? <==> reply.JcopDone?
    ensures reply.JcopDone? ==> (JcopScan(reply).verdict.kind == Partial <==> !Get(reply.content, "is_malware").Bool?)
  {
  }

  // ----- What a verdict tells besides its word

  /** A reason is transient when it holds one of four hints, in either case. */
  lemma HintIsTransient(before: string, hint: string, after: string)
    requires Lower(hint) in {"allocate", "time limit", "timeout", "no space"}
    ensures IsTransient(Some(before + hint + after))
  {
    var text := Lower(before + hint + after);
    assert text[|before|..][..|hint|] == Lower(hint);
    assert Lower(hint) <= text[|before|..];
  }

  /** And only then. */
  lemma TransientHasHint(reason: Option<string>) returns (before: string, hint: string, after: string)
    requires IsTransient(reason)
    ensures reason == Some(before + hint + after)
    ensures Lower(hint) in {"allocate", "time limit", "timeout", "no space"}
  {
    var text := Lower(reason.value);
    var found := if Contains(text, "allocate") then "allocate" else if Contains(text, "time limit") then "time limit"
                 else if Contains(text, "timeout") then "timeout" else "no space";
    hide Lower;
    before, hint, after := SpanOf(reason.value, found);
  }

  lemma SpanOf(r: string, found: string) returns (before: string, hint: string, after: string)
    requires Contains(Lower(r), found)
    ensures r == before + hint + after && Lower(hint) == found
  {
    var i :| 0 <= i <= |Lower(r)| && found <= Lower(r)[i..];
    var j := i + |found|;
    before, hint, after := r[..i], r[i..j], r[j..];
    LowerOfSlice(r, i, j);
    hide Lower, Contains;
    assert Lower(r)[i..j] == found;
  }

  lemma LowerOfSlice(s: string, i: nat, j: nat)
    requires i <= j <= |s|
    ensures |Lower(s)| == |s| && Lower(s[i..j]) == Lower(s)[i..j]
  {
  }

  lemma LowerAsExpected()
    ensures Lower("Can't ALLOCATE 1 byte (AZ[@`az{)") == "can't allocate 1 byte (az[@`az{)"
  {
  }

  /** clamd: the detection's own name; a limit and an unscannable file by their tags. */
  lemma ClamTells(status: string, reason: Option<string>)
    ensures var o := ClamScan(ClamLine(status, reason));
      && (o.Scanned? ==> o.verdict.location == None)
      && (o.Scanned? && o.verdict.kind == Clean ==> status == "OK" && o.verdict.reason == None)
      && (o.Scanned? && o.verdict.kind == Malware ==> o.verdict.reason == reason)
      && (o.Scanned? && o.verdict.kind == Partial ==>
            o.verdict.reason == Some(if status == "ERROR" then "UNSCANNABLE" else "LIMITS-EXCEEDED"))
  {
  }

  /** exav: signature and inner path of a detection, and the class of what it could not
      read, as far as they are texts. */
  lemma ExavTells(raw: string, data: Payload)
    ensures var o := ExavScan(ExavLine(raw, Some(Dict(data))));
      var told := if "category" in data && data["category"].Str? then data["category"].s else "";
      && (o.Scanned? && o.verdict.kind == Clean ==> o.verdict.reason == None && o.verdict.location == None)
      && (o.Scanned? && o.verdict.kind == Malware ==>
            && (if "signature" in data && data["signature"].Str? then o.verdict.reason == Some(data["signature"].s)
                else o.verdict.reason == None)
            && (if "location" in data && data["location"].Str? then o.verdict.location == Some(data["location"].s)
                else o.verdict.location == None))
      && (o.Scanned? && o.verdict.kind == Partial ==>
            o.verdict.location == None && o.verdict.reason == Some(if told == "" then "UNSCANNABLE" else told))
  {
  }

  /** jcop: its message on a detection, `malware` without one; a file too large by its tag. */
  lemma JcopTells(content: Payload)
    ensures var o := JcopScan(JcopDone(content));
      var message := if "error" in content && content["error"].Str? then content["error"].s else "";
      var tooLarge := "error_code" in content && content["error_code"] == Num(413.0);
      && o.Scanned? && o.verdict.location == None
      && (o.verdict.kind == Clean ==> o.verdict.reason == None)
      && (o.verdict.kind == Malware ==> o.verdict.reason == Some(if message == "" then "malware" else message))
      && (o.verdict.kind == Partial ==> o.verdict.reason == Some(if tooLarge then "LIMITS-EXCEEDED" else "UNSCANNABLE"))
  {
  }

  /** What an engine's verdict tells is what its result tells. */
  lemma ResultTells(engine: Engine, advisory: bool, reply: Reply)
    ensures var r := ResultOf(engine, advisory, reply);
      if Scan(reply).Scanned? then
        r.kind == Scan(reply).verdict.kind && r.reason == Scan(reply).verdict.reason &&
        r.location == Scan(reply).verdict.location
      else r.kind == Error && r.location == None
  {
  }
}
