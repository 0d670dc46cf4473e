// The PDF parser object: its rate limiter over a `last_api_call` field, the
// retry loop around one AI call per attempt, the per-document wrapper that
// stamps each question with its file name, the batched run over a directory
// and the aggregation into the saved result.
//
// The AI service is an oracle: `replies(a)` is the reply to attempt number
// `a` (its latency and either the answer text or the error message).
// Sleeps are not performed: they advance the parser's clock and are recorded
// in its fields, as are the clock values at which calls were made.
module PdfParsing {
  import opened PyText
  import opened JsonValue
  import opened PdfResponse

  /** Seconds required between two AI calls. */
  const MinInterval: int := 30
  /** Seconds slept after a quota error that names no retry delay. */
  const DefaultQuotaDelay: nat := 60
  /** Attempts of analyze_pdf_with_ai when it is called by parse_single_pdf. */
  const DefaultMaxRetries: int := 3

  datatype CallResult = Text(body: string) | Failure(message: string)

  /** One answer of the AI service: how long the call took and its result. */
  datatype Reply = Reply(latency: nat, result: CallResult)

  // ---------------------------------------------------------------- rate limit

  /** The wait before the next call, max(0, MinInterval - elapsed). */
  function RateWait(now: int, last: int): (r: nat)
    ensures now + r >= last + MinInterval
    ensures r > 0 <==> now - last < MinInterval
    ensures r > 0 ==> now + r == last + MinInterval
  {
    if now - last < MinInterval then MinInterval - (now - last) else 0
  }

  /** Every two granted call slots are at least MinInterval apart. */
  ghost predicate Spaced(grants: seq<int>) {
    forall i, j :: 0 <= i < j < |grants| ==> grants[i] + MinInterval <= grants[j]
  }

  // ------------------------------------------------------------ error classes

  /** An error counts as a quota error when it mentions "429" or, in any
      case, "quota". */
  predicate IsQuotaError(message: string) {
    Contains(message, "429") || Contains(Lower(message), "quota")
  }

  const RetryPrefix: string := "retry in "

  /** The length of the run of decimal digits starting at `i`. */
  function DigitRun(s: string, i: nat): (r: nat)
    requires i <= |s|
    ensures i + r <= |s|
    ensures forall k :: i <= k < i + r ==> IsDigit(s[k])
    ensures i + r == |s| || !IsDigit(s[i + r])
    decreases |s| - i
  {
    if i < |s| && IsDigit(s[i]) then 1 + DigitRun(s, i + 1) else 0
  }

  /** The whole seconds of a match of `retry in (\d+(?:\.\d+)?)s` that starts
      at position p, if one does. */
  function RetryAt(message: string, p: nat): (r: Option<nat>)
    requires p <= |message|
    ensures r.Some? ==> OccursAt(message, RetryPrefix, p)
  {
    if !OccursAt(message, RetryPrefix, p) then None
    else
      var d := p + |RetryPrefix|;
      var e := d + DigitRun(message, d);
      if e == d || e == |message| then None
      else if message[e] == 's' then Some(DigitsValue(message[d..e]))
      else if message[e] == '.' then
        var f := e + 1 + DigitRun(message, e + 1);
        if f > e + 1 && f < |message| && message[f] == 's' then Some(DigitsValue(message[d..e]))
        else None
      else None
  }

  /** re.search: the leftmost starting position at or after `from` that matches. */
  function RetryAfterFrom(message: string, from: nat): (r: Option<nat>)
    requires from <= |message|
    ensures r.Some? ==> exists p :: from <= p <= |message| && RetryAt(message, p) == r
    ensures r.None? ==> forall p :: from <= p <= |message| ==> RetryAt(message, p).None?
    decreases |message| - from
  {
    if RetryAt(message, from).Some? then RetryAt(message, from)
    else if from == |message| then None
    else RetryAfterFrom(message, from + 1)
  }

  /** The retry delay named in an error message, in whole seconds. */
  function RetryAfter(message: string): Option<nat> {
    RetryAfterFrom(message, 0)
  }

  /** The pause after a quota error: the named delay plus one second, or 60. */
  function QuotaDelay(message: string): nat
  {
    match RetryAfter(message)
    case Some(n) => n + 1
    case None => DefaultQuotaDelay
  }

  /** A message that ends in "retry in <n>s" and names no earlier delay
      yields exactly n. */
  lemma {:induction false} RetryAfterNamed(n: nat)
    ensures RetryAfter(RetryPrefix + NatToString(n) + "s") == Some(n)
  {
    var d := NatToString(n);
    var m := RetryPrefix + d + "s";
    assert m[..|RetryPrefix|] == RetryPrefix;
    assert OccursAt(m, RetryPrefix, 0);
    var run := DigitRun(m, |RetryPrefix|);
    forall k | |RetryPrefix| <= k < |RetryPrefix| + |d|
      ensures IsDigit(m[k])
    {
      assert m[k] == d[k - |RetryPrefix|];
    }
    assert m[|RetryPrefix| + |d|] == 's';
    assert run == |d|;
    assert m[|RetryPrefix|..|RetryPrefix| + |d|] == d;
    DigitsValueOfNatToString(n);
    assert RetryAt(m, 0) == Some(n);
  }

  // ------------------------------------------------------- analysis attempts

  /** How one attempt ends. */
  datatype AttemptEnd =
    | Answered(questions: seq<Question>)
    | Undecodable
    | QuotaHit(delay: nat)
    | Errored

  function AttemptResult(reply: Reply, parse: string -> Option<Json>): (r: AttemptEnd)
    ensures r.Answered? <==> reply.result.Text? && ExtractQuestions(reply.result.body, parse).Some?
    ensures r.Answered? ==> r.questions == ExtractQuestions(reply.result.body, parse).value
    ensures r.Undecodable? <==> reply.result.Text? && ExtractQuestions(reply.result.body, parse).None?
    ensures r.QuotaHit? <==> reply.result.Failure? && IsQuotaError(reply.result.message)
    ensures r.QuotaHit? ==> r.delay == QuotaDelay(reply.result.message)
  {
    match reply.result
    case Text(body) =>
      (match ExtractQuestions(body, parse)
       case Some(qs) => Answered(qs)
       case None => Undecodable)
    case Failure(message) =>
      if IsQuotaError(message) then QuotaHit(QuotaDelay(message)) else Errored
  }

  /** How each attempt of a run ends, from the reply it gets. */
  function Classify(replies: nat -> Reply, parse: string -> Option<Json>): nat -> AttemptEnd {
    (a: nat) => AttemptResult(replies(a), parse)
  }

  /** `ends` says how each attempt ends given the reply it gets. */
  ghost predicate Classifies(replies: nat -> Reply, parse: string -> Option<Json>, ends: nat -> AttemptEnd) {
    forall a: nat {:trigger AttemptResult(replies(a), parse)} :: ends(a) == AttemptResult(replies(a), parse)
  }

  lemma ClassifyClassifies(replies: nat -> Reply, parse: string -> Option<Json>)
    ensures Classifies(replies, parse, Classify(replies, parse))
  {
  }

  /** The first attempt at or after `from`, below maxRetries, that is answered. */
  function FirstAnswerFrom(ends: nat -> AttemptEnd, maxRetries: int, from: nat): (r: Option<nat>)
    ensures r.Some? ==> from <= r.value < maxRetries && ends(r.value).Answered?
    ensures r.Some? ==> forall a :: from <= a < r.value ==> !ends(a).Answered?
    ensures r.None? ==> forall a :: from <= a < maxRetries ==> !ends(a).Answered?
    decreases maxRetries - from
  {
    if from >= maxRetries then None
    else if ends(from).Answered? then Some(from)
    else FirstAnswerFrom(ends, maxRetries, from + 1)
  }

  function FirstAnswer(ends: nat -> AttemptEnd, maxRetries: int): Option<nat> {
    FirstAnswerFrom(ends, maxRetries, 0)
  }

  /** The question list analyze_pdf_with_ai returns: that of the first
      answered attempt, or none when every attempt failed. */
  function AnalysisOutcome(ends: nat -> AttemptEnd, maxRetries: int): seq<Question> {
    match FirstAnswer(ends, maxRetries)
    case Some(a) => ends(a).questions
    case None => []
  }

  /** The number of attempts made: up to the first answered one, else all. */
  function AttemptsMade(ends: nat -> AttemptEnd, maxRetries: int): (r: nat)
    ensures r <= if maxRetries < 0 then 0 else maxRetries
  {
    match FirstAnswer(ends, maxRetries)
    case Some(a) => a + 1
    case None => if maxRetries < 0 then 0 else maxRetries
  }

  /** The pause after attempt `a`: a quota error's delay when another attempt
      remains, nothing otherwise. */
  function PauseAfter(end: AttemptEnd, maxRetries: int, a: nat): (r: seq<nat>)
    ensures |r| <= 1
    ensures r != [] <==> end.QuotaHit? && a < maxRetries - 1
    ensures r != [] ==> r[0] == end.delay
  {
    match end
    case QuotaHit(d) => if a < maxRetries - 1 then [d] else []
    case _ => []
  }

  /** The pauses taken during the first n attempts. */
  function PausesBefore(ends: nat -> AttemptEnd, maxRetries: int, n: nat): (r: seq<nat>)
    ensures |r| <= n
  {
    if n == 0 then []
    else PausesBefore(ends, maxRetries, n - 1) + PauseAfter(ends(n - 1), maxRetries, n - 1)
  }

  lemma PauseStep(ends: nat -> AttemptEnd, maxRetries: int, before: seq<nat>, a: nat)
    ensures before + PausesBefore(ends, maxRetries, a + 1) ==
            (before + PausesBefore(ends, maxRetries, a)) + PauseAfter(ends(a), maxRetries, a)
  {
    AppendAssoc(before, PausesBefore(ends, maxRetries, a), PauseAfter(ends(a), maxRetries, a));
  }

  /** The pauses analyze_pdf_with_ai takes. */
  function AnalysisPauses(ends: nat -> AttemptEnd, maxRetries: int): seq<nat> {
    PausesBefore(ends, maxRetries, AttemptsMade(ends, maxRetries))
  }

  /** When attempt `a` is the first answered one, the run stops after it. */
  lemma AnsweredAt(ends: nat -> AttemptEnd, maxRetries: int, a: nat)
    requires FirstAnswer(ends, maxRetries) == Some(a)
    ensures AnalysisOutcome(ends, maxRetries) == ends(a).questions
    ensures AttemptsMade(ends, maxRetries) == a + 1
    ensures AnalysisPauses(ends, maxRetries) == PausesBefore(ends, maxRetries, a + 1)
  {
  }

  /** When no attempt is answered, every allowed attempt is made. */
  lemma NoneAnswered(ends: nat -> AttemptEnd, maxRetries: int)
    requires FirstAnswer(ends, maxRetries).None?
    ensures AnalysisOutcome(ends, maxRetries) == []
    ensures AttemptsMade(ends, maxRetries) == if maxRetries < 0 then 0 else maxRetries
    ensures AnalysisPauses(ends, maxRetries) == PausesBefore(ends, maxRetries, AttemptsMade(ends, maxRetries))
  {
  }

  /** There are fewer pauses than attempts allowed, and each is the delay of
      a quota error. */
  lemma {:induction false} PausesAreQuotaDelays(ends: nat -> AttemptEnd, maxRetries: int, n: nat)
    ensures |PausesBefore(ends, maxRetries, n)| <= if maxRetries <= 1 then 0 else maxRetries - 1
    ensures forall k :: 0 <= k < |PausesBefore(ends, maxRetries, n)| ==>
              exists a :: 0 <= a < n && ends(a) == QuotaHit(PausesBefore(ends, maxRetries, n)[k])
  {
    if n > 0 {
      PausesAreQuotaDelays(ends, maxRetries, n - 1);
      var p := PausesBefore(ends, maxRetries, n - 1);
      var q := PauseAfter(ends(n - 1), maxRetries, n - 1);
      var r := PausesBefore(ends, maxRetries, n);
      assert r == p + q;
      forall k | 0 <= k < |r|
        ensures exists a :: 0 <= a < n && ends(a) == QuotaHit(r[k])
      {
        if k < |p| {
          assert r[k] == p[k];
          var a :| 0 <= a < n - 1 && ends(a) == QuotaHit(p[k]);
        } else {
          assert r[k] == q[0];
          assert ends(n - 1) == QuotaHit(r[k]);
        }
      }
    }
  }

  /** Every pause of a run lasts at least a second. */
  lemma PausesAtLeastOneSecond(replies: nat -> Reply, parse: string -> Option<Json>, maxRetries: int, n: nat)
    ensures forall k :: 0 <= k < |PausesBefore(Classify(replies, parse), maxRetries, n)| ==>
              PausesBefore(Classify(replies, parse), maxRetries, n)[k] >= 1
  {
    var ends := Classify(replies, parse);
    PausesAreQuotaDelays(ends, maxRetries, n);
    forall k | 0 <= k < |PausesBefore(ends, maxRetries, n)|
      ensures PausesBefore(ends, maxRetries, n)[k] >= 1
    {
      var a :| 0 <= a < n && ends(a) == QuotaHit(PausesBefore(ends, maxRetries, n)[k]);
      assert ends(a) == AttemptResult(replies(a), parse);
    }
  }

  /** analyze_pdf_with_ai returns either no questions or the answer of an
      attempt it was allowed to make, every earlier attempt having failed. */
  lemma AnalysisOutcomeIsAnAnswer(ends: nat -> AttemptEnd, maxRetries: int)
    ensures AnalysisOutcome(ends, maxRetries) == [] ||
            exists a :: 0 <= a < maxRetries && ends(a) == Answered(AnalysisOutcome(ends, maxRetries)) &&
              forall b :: 0 <= b < a ==> !ends(b).Answered?
  {
    match FirstAnswer(ends, maxRetries)
    case Some(a) =>
      assert ends(a) == Answered(AnalysisOutcome(ends, maxRetries));
    case None =>
  }

  /** A quota error that names no delay is followed by a 60-second pause. */
  lemma QuotaWithoutDelay(reply: Reply, parse: string -> Option<Json>)
    requires reply.result.Failure? && IsQuotaError(reply.result.message)
    requires RetryAfter(reply.result.message).None?
    ensures AttemptResult(reply, parse) == QuotaHit(DefaultQuotaDelay)
  {
  }

  /** Under a quota error on every attempt that names no delay, all attempts
      are made, each but the last followed by a 60-second pause, and the
      result is empty. */
  lemma {:induction false} QuotaEveryTime(ends: nat -> AttemptEnd, maxRetries: nat, n: nat)
    requires forall a :: 0 <= a < maxRetries ==> ends(a) == QuotaHit(DefaultQuotaDelay)
    requires n <= maxRetries
    ensures AnalysisOutcome(ends, maxRetries) == []
    ensures AttemptsMade(ends, maxRetries) == maxRetries
    ensures PausesBefore(ends, maxRetries, n) ==
              seq(if n == maxRetries && n > 0 then n - 1 else n, _ => DefaultQuotaDelay)
  {
    assert FirstAnswer(ends, maxRetries).None?;
    if n > 0 {
      QuotaEveryTime(ends, maxRetries, n - 1);
      var p := PausesBefore(ends, maxRetries, n - 1);
      assert p == seq(n - 1, _ => DefaultQuotaDelay);
      if n < maxRetries {
        assert PausesBefore(ends, maxRetries, n) == p + [DefaultQuotaDelay];
      } else {
        assert PausesBefore(ends, maxRetries, n) == p;
      }
    }
  }

  /** An answered first attempt ends the analysis at once, without pauses. */
  lemma FirstAttemptAnswered(ends: nat -> AttemptEnd, maxRetries: int)
    requires maxRetries >= 1 && ends(0).Answered?
    ensures AnalysisOutcome(ends, maxRetries) == ends(0).questions
    ensures AttemptsMade(ends, maxRetries) == 1
    ensures AnalysisPauses(ends, maxRetries) == []
  {
    assert PausesBefore(ends, maxRetries, 1) == [] + PauseAfter(ends(0), maxRetries, 0);
  }

  /** Decode failures and other errors are retried without a pause: after
      one of them, an answered second attempt is the outcome. */
  lemma RetriedWithoutPause(ends: nat -> AttemptEnd, maxRetries: int)
    requires maxRetries >= 2
    requires ends(0).Undecodable? || ends(0).Errored?
    requires ends(1).Answered?
    ensures AnalysisOutcome(ends, maxRetries) == ends(1).questions
    ensures AttemptsMade(ends, maxRetries) == 2
    ensures AnalysisPauses(ends, maxRetries) == []
  {
    assert FirstAnswerFrom(ends, maxRetries, 1) == Some(1);
    assert PausesBefore(ends, maxRetries, 1) == [] + PauseAfter(ends(0), maxRetries, 0);
    assert PausesBefore(ends, maxRetries, 2) ==
             PausesBefore(ends, maxRetries, 1) + PauseAfter(ends(1), maxRetries, 1);
  }

  // ----------------------------------------------------------- file handling

  /** A PDF file as parse_single_pdf sees it: its path, whether it exists,
      and whether reading its size raises. */
  datatype PdfFile = PdfFile(path: string, present: bool, statFails: bool)

  function DropTrailingSlashes(path: string): (r: string)
    ensures |r| <= |path| && r == path[..|r|]
    ensures r == [] || r[|r| - 1] != '/'
  {
    if path != [] && path[|path| - 1] == '/' then DropTrailingSlashes(path[..|path| - 1]) else path
  }

  /** Path(path).name: the last component of the path. */
  function BaseName(path: string): (r: string)
    ensures '/' !in r
  {
    var p := DropTrailingSlashes(path);
    p[RFindChar(p, '/') + 1..]
  }

  lemma BaseNameOfJoin(dir: string, name: string)
    requires '/' !in name && name != []
    ensures BaseName(dir + "/" + name) == name
  {
    var p := dir + "/" + name;
    assert DropTrailingSlashes(p) == p;
    var k := RFindChar(p, '/');
    assert p[|dir|] == '/';
    assert k >= |dir|;
    assert p[|dir| + 1..] == name;
  }

  const PdfSuffix: string := ".pdf"

  /** The file name of a document's result: every ".pdf" removed from its
      name, then "_result.json" appended. */
  function ResultFileName(pdfName: string): (r: string)
    ensures EndsWith(r, "_result.json")
  {
    ReplaceAll(pdfName, PdfSuffix, "") + "_result.json"
  }

  /** A name that holds ".pdf" only as its suffix keeps its stem. */
  lemma ResultFileNameOfStem(stem: string)
    requires forall k :: 0 <= k < |stem| ==> !OccursAt(stem + PdfSuffix, PdfSuffix, k)
    ensures ResultFileName(stem + PdfSuffix) == stem + "_result.json"
  {
    ReplaceSuffix(stem, PdfSuffix, "");
    assert stem + "" == stem;
  }

  /** Every occurrence is removed, not only the suffix. */
  lemma ResultFileNameEveryOccurrence()
    ensures ResultFileName("a.pdf.pdf") == "a_result.json"
  {
    var s := "a.pdf.pdf";
    assert s[0] != PdfSuffix[0] && s[1..] == ".pdf.pdf";
    assert ".pdf.pdf"[..4] == PdfSuffix && ".pdf.pdf"[4..] == ".pdf";
    assert ".pdf"[..4] == PdfSuffix && ".pdf"[4..] == "";
    assert ReplaceAll(".pdf", PdfSuffix, "") == "";
    assert ReplaceAll(".pdf.pdf", PdfSuffix, "") == "";
    assert ReplaceAll(s, PdfSuffix, "") == "a";
  }

  /** Each question of a document's result, stamped with the document's name. */
  function Stamped(questions: seq<Question>, name: string): (r: seq<Question>)
    ensures |r| == |questions|
    ensures forall k :: 0 <= k < |r| ==> r[k].source == Some(name)
    ensures forall k :: 0 <= k < |r| ==> r[k].(source := questions[k].source) == questions[k]
  {
    seq(|questions|, k requires 0 <= k < |questions| => questions[k].(source := Some(name)))
  }

  /** The result parse_single_pdf produces for a file, or None when it raises. */
  function SingleOutcome(file: PdfFile, replies: nat -> Reply, parse: string -> Option<Json>): Option<seq<Question>> {
    if !file.present then Some([])
    else if file.statFails then None
    else Some(Stamped(AnalysisOutcome(Classify(replies, parse), DefaultMaxRetries), BaseName(file.path)))
  }

  /** A task's result, an exception replaced by an empty result. */
  function OrEmpty(outcome: Option<seq<Question>>): (r: seq<Question>)
    ensures outcome.None? ==> r == []
    ensures outcome.Some? ==> r == outcome.value
  {
    match outcome
    case Some(qs) => qs
    case None => []
  }

  /** The results parse_all_pdfs gathers: one per file, in order, a raised
      exception replaced by an empty result. */
  function AllOutcomes(files: seq<PdfFile>, replies: nat -> nat -> Reply, parse: string -> Option<Json>): (r: seq<seq<Question>>)
    ensures |r| == |files|
  {
    seq(|files|, k requires 0 <= k < |files| => OrEmpty(SingleOutcome(files[k], replies(k), parse)))
  }

  /** The pauses parse_single_pdf takes for a file: none when it returns
      before the analysis, the analysis's own otherwise. */
  function FilePauses(file: PdfFile, replies: nat -> Reply, parse: string -> Option<Json>): seq<nat> {
    if !file.present || file.statFails then [] else AnalysisPauses(Classify(replies, parse), DefaultMaxRetries)
  }

  /** The call slots parse_single_pdf takes for a file. */
  function FileAttempts(file: PdfFile, replies: nat -> Reply, parse: string -> Option<Json>): nat {
    if !file.present || file.statFails then 0 else AttemptsMade(Classify(replies, parse), DefaultMaxRetries)
  }

  /** The call slots of each file, in file order. */
  function SlotTable(files: seq<PdfFile>, replies: nat -> nat -> Reply, parse: string -> Option<Json>): seq<int> {
    seq(|files|, k requires 0 <= k < |files| => FileAttempts(files[k], replies(k), parse))
  }

  /** The pauses of each file, in file order. */
  function PauseTable(files: seq<PdfFile>, replies: nat -> nat -> Reply, parse: string -> Option<Json>): seq<seq<nat>> {
    seq(|files|, k requires 0 <= k < |files| => FilePauses(files[k], replies(k), parse))
  }

  /** slots and table list, file by file, the call slots and the pauses
      parse_single_pdf takes; the traces of a batch and of a whole run are
      stated over them. */
  ghost predicate Tabulates(files: seq<PdfFile>, replies: nat -> nat -> Reply, parse: string -> Option<Json>,
                            slots: seq<int>, table: seq<seq<nat>>)
  {
    |slots| == |files| && |table| == |files| &&
    (forall k {:trigger FileAttempts(files[k], replies(k), parse)} :: 0 <= k < |files| ==> slots[k] == FileAttempts(files[k], replies(k), parse)) &&
    (forall k {:trigger FilePauses(files[k], replies(k), parse)} :: 0 <= k < |files| ==> table[k] == FilePauses(files[k], replies(k), parse))
  }

  /** Such tables exist for every list of files. */
  lemma TablesOf(files: seq<PdfFile>, replies: nat -> nat -> Reply, parse: string -> Option<Json>)
    returns (slots: seq<int>, table: seq<seq<nat>>)
    ensures Tabulates(files, replies, parse, slots, table)
  {
    slots := SlotTable(files, replies, parse);
    table := PauseTable(files, replies, parse);
  }

  /** ... and they are unique: those of SlotTable and PauseTable. */
  lemma TablesAre(files: seq<PdfFile>, replies: nat -> nat -> Reply, parse: string -> Option<Json>,
                  slots: seq<int>, table: seq<seq<nat>>)
    requires Tabulates(files, replies, parse, slots, table)
    ensures slots == SlotTable(files, replies, parse) && table == PauseTable(files, replies, parse)
  {
    forall k | 0 <= k < |files|
      ensures slots[k] == SlotTable(files, replies, parse)[k] && table[k] == PauseTable(files, replies, parse)[k]
    {
      assert slots[k] == FileAttempts(files[k], replies(k), parse);
      assert table[k] == FilePauses(files[k], replies(k), parse);
    }
  }

  /** The call slots of the files from index lo up to hi. */
  function BatchAttempts(slots: seq<int>, lo: nat, hi: nat): int
    requires lo <= hi <= |slots|
    decreases hi
  {
    if lo == hi then 0 else BatchAttempts(slots, lo, hi - 1) + slots[hi - 1]
  }

  /** The pauses of the files from index lo up to hi, in file order. */
  function BatchPauses(table: seq<seq<nat>>, lo: nat, hi: nat): seq<nat>
    requires lo <= hi <= |table|
    decreases hi
  {
    if lo == hi then [] else BatchPauses(table, lo, hi - 1) + table[hi - 1]
  }

  function Min(a: nat, b: nat): nat {
    if a <= b then a else b
  }

  /** The pause trace p extended by the batches of `size` files that start
      at lo, lo + size, ... before the end: each batch's files' own pauses,
      then one second when files remain after it. */
  function RunPauses(p: seq<nat>, table: seq<seq<nat>>, size: nat, lo: nat): seq<nat>
    requires size > 0
    decreases |table| - lo
  {
    if lo >= |table| then p
    else
      var hi := Min(lo + size, |table|);
      var q := p + BatchPauses(table, lo, hi);
      RunPauses(if hi < |table| then q + [1] else q, table, size, lo + size)
  }

  /** Batching changes no call count: across all batches, the call slots are
      those of the files taken in order. */
  lemma BatchAttemptsSplit(slots: seq<int>, a: nat, b: nat, c: nat)
    requires a <= b <= c <= |slots|
    ensures BatchAttempts(slots, a, c) == BatchAttempts(slots, a, b) + BatchAttempts(slots, b, c)
    decreases c - b
  {
    if b < c {
      BatchAttemptsSplit(slots, a, b, c - 1);
    }
  }

  /** One more file extends a batch's pauses by that file's. */
  lemma PauseTraceStep(table: seq<seq<nat>>, lo: nat, j: nat, p0: seq<nat>, before: seq<nat>, after: seq<nat>)
    requires lo <= j < |table|
    requires before == p0 + BatchPauses(table, lo, j)
    requires after == before + table[j]
    ensures after == p0 + BatchPauses(table, lo, j + 1)
  {
    AppendAssoc(p0, BatchPauses(table, lo, j), table[j]);
  }

  /** The run only appends to the pause trace. */
  lemma {:induction false} RunPausesExtend(p: seq<nat>, table: seq<seq<nat>>, size: nat, lo: nat)
    requires size > 0
    ensures p <= RunPauses(p, table, size, lo)
    decreases |table| - lo
  {
    if lo < |table| {
      var hi := Min(lo + size, |table|);
      var q := p + BatchPauses(table, lo, hi);
      var next := if hi < |table| then q + [1] else q;
      AppendGrows(p, BatchPauses(table, lo, hi));
      AppendGrows(q, [1]);
      RunPausesExtend(next, table, size, lo + size);
      PrefixTrans(p, q, next);
      PrefixTrans(p, next, RunPauses(next, table, size, lo + size));
    }
  }

  /** Only the one-second pauses separate the batches: a run with a single
      batch adds just its files' pauses. */
  lemma OneBatchNoSeparator(p: seq<nat>, table: seq<seq<nat>>, size: nat)
    requires 0 < |table| <= size
    ensures RunPauses(p, table, size, 0) == p + BatchPauses(table, 0, |table|)
  {
  }

  /** With more files than one batch holds, the trace shows the first
      batch's files' pauses, then the one-second sleep, then the rest of the
      run. */
  lemma SeparatorAfterFirstBatch(p: seq<nat>, table: seq<seq<nat>>, size: nat)
    requires 0 < size < |table|
    ensures p + BatchPauses(table, 0, size) + [1] <= RunPauses(p, table, size, 0)
  {
    RunPausesExtend(p + BatchPauses(table, 0, size) + [1], table, size, size);
  }

  /** A missing file and a file whose size cannot be read both end as an
      empty result of the batch run; every other file's questions carry its
      name. */
  lemma AllOutcomesStamped(files: seq<PdfFile>, replies: nat -> nat -> Reply, parse: string -> Option<Json>, k: nat, j: nat)
    requires k < |files| && j < |AllOutcomes(files, replies, parse)[k]|
    ensures files[k].present && !files[k].statFails
    ensures AllOutcomes(files, replies, parse)[k][j].source == Some(BaseName(files[k].path))
  {
    assert AllOutcomes(files, replies, parse)[k] == OrEmpty(SingleOutcome(files[k], replies(k), parse));
  }

  // -------------------------------------------------------------- aggregation

  /** The saved aggregate: the question count, the questions, the number of
      documents. */
  datatype Saved = Saved(totalQuestions: nat, questions: seq<Question>, pdfCount: nat)

  function Concat(results: seq<seq<Question>>): (r: seq<Question>) {
    if results == [] then [] else Concat(results[..|results| - 1]) + results[|results| - 1]
  }

  function TotalLength(results: seq<seq<Question>>): nat {
    if results == [] then 0 else TotalLength(results[..|results| - 1]) + |results[|results| - 1]|
  }

  /** The questions renumbered Q001, Q002, ... in order. */
  function Renumbered(questions: seq<Question>): (r: seq<Question>)
    ensures |r| == |questions|
    ensures forall k :: 0 <= k < |r| ==> r[k].id == Str(FormatId(k + 1))
    ensures forall k :: 0 <= k < |r| ==> r[k].(id := questions[k].id) == questions[k]
  {
    seq(|questions|, k requires 0 <= k < |questions| => questions[k].(id := Str(FormatId(k + 1))))
  }

  lemma {:induction false} ConcatLength(results: seq<seq<Question>>)
    ensures |Concat(results)| == TotalLength(results)
  {
    if results != [] {
      ConcatLength(results[..|results| - 1]);
    }
  }

  /** Renumbered ids are pairwise distinct. */
  lemma RenumberedDistinct(questions: seq<Question>, i: nat, j: nat)
    requires i < j < |questions|
    ensures Renumbered(questions)[i].id != Renumbered(questions)[j].id
  {
    if Renumbered(questions)[i].id == Renumbered(questions)[j].id {
      FormatIdInjective(i + 1, j + 1);
    }
  }

  /** Renumbering twice is renumbering once. */
  lemma RenumberedIdempotent(questions: seq<Question>)
    ensures Renumbered(Renumbered(questions)) == Renumbered(questions)
  {
    var once := Renumbered(questions);
    var twice := Renumbered(once);
    forall k | 0 <= k < |questions|
      ensures twice[k] == once[k]
    {
      assert twice[k].(id := once[k].id) == once[k];
    }
  }

  /** save_results: all questions in result order, renumbered, with their
      count and the number of documents. */
  method SaveResults(results: seq<seq<Question>>) returns (saved: Saved)
    ensures saved.questions == Renumbered(Concat(results))
    ensures saved.totalQuestions == |saved.questions| == TotalLength(results)
    ensures saved.pdfCount == |results|
  {
    var all: seq<Question> := [];
    for r := 0 to |results|
      invariant all == Concat(results[..r])
    {
      all := all + results[r];
      assert results[..r + 1][..r] == results[..r];
    }
    assert results[..|results|] == results;
    var renumbered: seq<Question> := [];
    for i := 0 to |all|
      invariant |renumbered| == i
      invariant forall k :: 0 <= k < i ==> renumbered[k] == all[k].(id := Str(FormatId(k + 1)))
    {
      renumbered := renumbered + [all[i].(id := Str(FormatId(i + 1)))];
    }
    ConcatLength(results);
    saved := Saved(|renumbered|, renumbered, |results|);
  }

  // ------------------------------------------------------------------- parser

  class PdfParser {
    /** time.time(), in whole seconds. */
    var clock: int
    /** The clock value at which the last call slot was granted. */
    var lastApiCall: int
    /** The clock values at which call slots were granted, oldest first. */
    var grants: seq<int>
    /** The blocking waits of the rate limiter, oldest first. */
    var waits: seq<nat>
    /** The asynchronous pauses, oldest first. */
    var pauses: seq<nat>

    ghost predicate Valid()
      reads this
    {
      lastApiCall <= clock && Spaced(grants) &&
      forall i :: 0 <= i < |grants| ==> grants[i] <= lastApiCall
    }

    constructor (now: nat)
      ensures Valid()
      ensures clock == now && lastApiCall == 0 && grants == [] && waits == [] && pauses == []
    {
      clock := now;
      lastApiCall := 0;
      grants := [];
      waits := [];
      pauses := [];
    }

    /** wait_for_rate_limit: sleep out the rest of MinInterval since the last
        call, then grant the next call at the current time. */
    method WaitForRateLimit()
      modifies this
      requires Valid()
      ensures Valid()
      ensures var w := RateWait(old(clock), old(lastApiCall));
              clock == old(clock) + w && lastApiCall == clock &&
              waits == old(waits) + (if w > 0 then [w] else [])
      ensures grants == old(grants) + [lastApiCall] && pauses == old(pauses)
      ensures lastApiCall >= old(lastApiCall) + MinInterval
    {
      var elapsed := clock - lastApiCall;
      if elapsed < MinInterval {
        var wait := MinInterval - elapsed;
        clock := clock + wait;
        waits := waits + [wait];
      }
      lastApiCall := clock;
      grants := grants + [clock];
    }

    /** asyncio.sleep */
    method Pause(secs: nat)
      modifies this
      requires Valid()
      ensures Valid()
      ensures clock == old(clock) + secs && lastApiCall == old(lastApiCall)
      ensures pauses == old(pauses) + [secs] && grants == old(grants) && waits == old(waits)
    {
      clock := clock + secs;
      pauses := pauses + [secs];
    }

    /** One attempt's answer handling: the candidate search on the stripped
        text, then validation of the `questions` entries; None for a decode
        failure. */
    static method HandleAnswer(body: string, parse: string -> Option<Json>) returns (questions: Option<seq<Question>>)
      ensures questions == ExtractQuestions(body, parse)
    {
      var text := Strip(body);
      var result := ParseFirstCandidate(Candidates(text), parse);
      if result == Null {
        return None;
      }
      var valid := ValidateQuestions(QuestionEntries(result));
      return Some(valid);
    }

    /** One attempt of analyze_pdf_with_ai given the service's reply: the
        rate limit wait, the call, then the answer handled or the error
        classified, pausing after a quota error when attempts remain. */
    method RunAttempt(replies: nat -> Reply, parse: string -> Option<Json>, ghost ends: nat -> AttemptEnd, attempt: nat, maxRetries: int)
      returns (outcome: AttemptEnd)
      modifies this
      requires Valid() && Classifies(replies, parse, ends)
      ensures Valid()
      ensures outcome == ends(attempt)
      ensures grants == old(grants) + [lastApiCall]
      ensures pauses == old(pauses) + PauseAfter(outcome, maxRetries, attempt)
      ensures lastApiCall >= old(lastApiCall) + MinInterval
    {
      var reply := replies(attempt);
      Dispatch(reply.latency);
      outcome := ClassifyReply(reply, parse);
      if outcome.QuotaHit? && attempt < maxRetries - 1 {
        Pause(outcome.delay);
      }
    }

    /** The rate limit wait, then the call itself, which takes `latency`. */
    method Dispatch(latency: nat)
      modifies this
      requires Valid()
      ensures Valid()
      ensures grants == old(grants) + [lastApiCall] && pauses == old(pauses)
      ensures lastApiCall >= old(lastApiCall) + MinInterval
      ensures clock == lastApiCall + latency
    {
      WaitForRateLimit();
      clock := clock + latency;
    }

    /** The handling of an attempt's reply: its answer decoded and validated,
        or its error classified. */
    static method ClassifyReply(reply: Reply, parse: string -> Option<Json>) returns (outcome: AttemptEnd)
      ensures outcome == AttemptResult(reply, parse)
    {
      match reply.result {
        case Text(body) =>
          var got := HandleAnswer(body, parse);
          outcome := if got.Some? then Answered(got.value) else Undecodable;
        case Failure(message) =>
          outcome := if IsQuotaError(message) then QuotaHit(QuotaDelay(message)) else Errored;
      }
    }

    /** analyze_pdf_with_ai: up to maxRetries attempts; the first answered
        attempt's questions are returned, otherwise none. A decode failure
        or another error on the last attempt returns at once; a quota error
        there ends the loop. */
    method AnalyzePdf(replies: nat -> Reply, parse: string -> Option<Json>, ghost ends: nat -> AttemptEnd, maxRetries: int)
      returns (questions: seq<Question>)
      modifies this
      requires Valid() && Classifies(replies, parse, ends)
      ensures Valid()
      ensures questions == AnalysisOutcome(ends, maxRetries)
      ensures old(grants) <= grants
      ensures |grants| == |old(grants)| + AttemptsMade(ends, maxRetries)
      ensures pauses == old(pauses) + AnalysisPauses(ends, maxRetries)
      ensures lastApiCall >= old(lastApiCall) + MinInterval * AttemptsMade(ends, maxRetries)
    {
      ghost var grants0 := grants;
      ghost var pauses0 := pauses;
      ghost var last0 := lastApiCall;
      questions := [];
      var attempt := 0;
      while attempt < maxRetries
        invariant Valid()
        invariant 0 <= attempt && (attempt == 0 || attempt <= maxRetries)
        invariant FirstAnswer(ends, maxRetries) == FirstAnswerFrom(ends, maxRetries, attempt)
        invariant grants0 <= grants && |grants| == |grants0| + attempt
        invariant pauses == pauses0 + PausesBefore(ends, maxRetries, attempt)
        invariant lastApiCall >= last0 + MinInterval * attempt
        invariant questions == []
      {
        var outcome := RunAttempt(replies, parse, ends, attempt, maxRetries);
        PauseStep(ends, maxRetries, pauses0, attempt);
        if outcome.Answered? {
          questions := outcome.questions;
          AnsweredAt(ends, maxRetries, attempt);
          return;
        }
        if !outcome.QuotaHit? && attempt == maxRetries - 1 {
          assert FirstAnswerFrom(ends, maxRetries, attempt + 1).None?;
          NoneAnswered(ends, maxRetries);
          return;
        }
        attempt := attempt + 1;
      }
      NoneAnswered(ends, maxRetries);
    }

    /** parse_single_pdf: nothing for a missing file; the analysis of the
        file with every question stamped with the file's name otherwise;
        None when reading the file's size raises. */
    method ParseSinglePdf(file: PdfFile, replies: nat -> Reply, parse: string -> Option<Json>) returns (outcome: Option<seq<Question>>)
      modifies this
      requires Valid()
      ensures Valid()
      ensures outcome == SingleOutcome(file, replies, parse)
      ensures !file.present || file.statFails ==> unchanged(this)
      ensures old(grants) <= grants
      ensures |grants| == |old(grants)| + FileAttempts(file, replies, parse)
      ensures pauses == old(pauses) + FilePauses(file, replies, parse)
    {
      if !file.present {
        return Some([]);
      }
      if file.statFails {
        return None;
      }
      var name := BaseName(file.path);
      ClassifyClassifies(replies, parse);
      var result := AnalyzePdf(replies, parse, Classify(replies, parse), DefaultMaxRetries);
      var stamped := StampAll(result, name);
      return Some(stamped);
    }

    /** The loop of parse_single_pdf that sets each question's source. */
    static method StampAll(questions: seq<Question>, name: string) returns (stamped: seq<Question>)
      ensures stamped == Stamped(questions, name)
    {
      stamped := [];
      for i := 0 to |questions|
        invariant |stamped| == i
        invariant forall k :: 0 <= k < i ==> stamped[k] == questions[k].(source := Some(name))
      {
        stamped := stamped + [questions[i].(source := Some(name))];
      }
      assert forall k :: 0 <= k < |stamped| ==> stamped[k] == Stamped(questions, name)[k];
    }

    /** One batch of parse_all_pdfs: the files from index `from` up to `to`,
        each task's exception replaced by an empty result. */
    method RunBatch(files: seq<PdfFile>, from: nat, to: nat, replies: nat -> nat -> Reply, parse: string -> Option<Json>,
                    ghost slots: seq<int>, ghost table: seq<seq<nat>>)
      returns (batch: seq<seq<Question>>)
      modifies this
      requires from <= to <= |files|
      requires Valid() && Tabulates(files, replies, parse, slots, table)
      ensures Valid()
      ensures batch == AllOutcomes(files, replies, parse)[from..to]
      ensures old(grants) <= grants
      ensures |grants| == |old(grants)| + BatchAttempts(slots, from, to)
      ensures pauses == old(pauses) + BatchPauses(table, from, to)
    {
      ghost var all := AllOutcomes(files, replies, parse);
      ghost var grants0 := grants;
      ghost var pauses0 := pauses;
      batch := [];
      for j := from to to
        invariant Valid()
        invariant batch == all[from..j]
        invariant grants0 <= grants && |grants| == |grants0| + BatchAttempts(slots, from, j)
        invariant pauses == pauses0 + BatchPauses(table, from, j)
      {
        ghost var before := pauses;
        var one := ParseSinglePdf(files[j], replies(j), parse);
        assert all[j] == OrEmpty(one);
        SliceExtend(all, from, j);
        PauseTraceStep(table, from, j, pauses0, before, pauses);
        batch := batch + [if one.Some? then one.value else []];
      }
    }

    /** One batch of parse_all_pdfs, the files from i on, then the one-second
        sleep when files remain after it: the call slots grow by the batch's,
        and the pauses still to come are those of the batches after it. */
    method NextBatch(files: seq<PdfFile>, i: nat, size: nat, replies: nat -> nat -> Reply, parse: string -> Option<Json>,
                     ghost slots: seq<int>, ghost table: seq<seq<nat>>, ghost g0: nat, ghost whole: seq<nat>)
      returns (batch: seq<seq<Question>>, end: nat)
      modifies this
      requires Valid() && Tabulates(files, replies, parse, slots, table)
      requires size > 0 && i < |files|
      requires |grants| == g0 + BatchAttempts(slots, 0, i)
      requires RunPauses(pauses, table, size, i) == whole
      ensures Valid()
      ensures end == Min(i + size, |files|) && i < end
      ensures batch == AllOutcomes(files, replies, parse)[i..end]
      ensures old(grants) <= grants
      ensures |grants| == g0 + BatchAttempts(slots, 0, end)
      ensures RunPauses(pauses, table, size, i + size) == whole
    {
      end := if i + size < |files| then i + size else |files|;
      batch := RunBatch(files, i, end, replies, parse, slots, table);
      if end < |files| {
        Pause(1);
      }
      BatchAttemptsSplit(slots, 0, i, end);
    }

    /** The batches of a run, one after another: the loop of `parse_all_pdfs`. */
    method RunBatches(files: seq<PdfFile>, size: nat, replies: nat -> nat -> Reply, parse: string -> Option<Json>,
                      ghost slots: seq<int>, ghost table: seq<seq<nat>>)
      returns (gathered: seq<seq<Question>>)
      modifies this
      requires Valid() && Tabulates(files, replies, parse, slots, table) && size > 0
      ensures Valid()
      ensures gathered == AllOutcomes(files, replies, parse)
      ensures old(grants) <= grants && |grants| == |old(grants)| + BatchAttempts(slots, 0, |files|)
      ensures pauses == RunPauses(old(pauses), table, size, 0)
    {
      gathered := [];
      ghost var grants0 := grants;
      var i := 0;
      ghost var done: nat := 0;
      ghost var whole := RunPauses(pauses, table, size, 0);
      while i < |files|
        invariant Valid()
        invariant 0 <= i && done == Min(i, |files|)
        invariant gathered == AllOutcomes(files, replies, parse)[..done]
        invariant grants0 <= grants && |grants| == |grants0| + BatchAttempts(slots, 0, done)
        invariant RunPauses(pauses, table, size, i) == whole
        decreases |files| - i
      {
        var batch, end := NextBatch(files, i, size, replies, parse, slots, table, |grants0|, whole);
        SliceJoin(AllOutcomes(files, replies, parse), i, end);
        gathered := gathered + batch;
        i := i + size;
        done := end;
      }
      assert AllOutcomes(files, replies, parse)[..|files|] == AllOutcomes(files, replies, parse);
    }

    /** parse_all_pdfs over the files the directory holds, run one batch of
        2 * concurrency files after another, with a one-second pause between
        batches. None: the run raises, because concurrency is not positive
        while there are files. The ghost slots and table name the files' own
        call slots and pauses (Tabulates): the run takes all the files' call
        slots, and its pause trace is RunPauses, each batch's files' pauses
        followed by one second when files remain. */
    method ParseAllPdfs(files: seq<PdfFile>, concurrency: int, replies: nat -> nat -> Reply, parse: string -> Option<Json>,
                        ghost slots: seq<int>, ghost table: seq<seq<nat>>)
      returns (results: Option<seq<seq<Question>>>)
      modifies this
      requires Valid() && Tabulates(files, replies, parse, slots, table)
      ensures Valid()
      ensures files == [] ==> results == Some([])
      ensures files != [] && concurrency <= 0 ==> results.None?
      ensures files != [] && concurrency > 0 ==> results == Some(AllOutcomes(files, replies, parse))
      ensures files == [] || concurrency <= 0 ==> unchanged(this)
      ensures old(grants) <= grants
      ensures files != [] && concurrency > 0 ==> |grants| == |old(grants)| + BatchAttempts(slots, 0, |files|)
      ensures files != [] && concurrency > 0 ==> pauses == RunPauses(old(pauses), table, 2 * concurrency, 0)
    {
      if files == [] {
        return Some([]);
      }
      if concurrency <= 0 {
        return None;
      }
      var gathered := RunBatches(files, concurrency * 2, replies, parse, slots, table);
      return Some(gathered);
    }
  }

  lemma AppendAssoc<T>(a: seq<T>, b: seq<T>, c: seq<T>)
    ensures (a + b) + c == a + (b + c)
  {
  }

  lemma AppendGrows<T>(r: seq<T>, m: seq<T>)
    ensures r <= r + m
  {
    assert (r + m)[..|r|] == r;
  }

  lemma PrefixTrans<T>(a: seq<T>, b: seq<T>, c: seq<T>)
    requires a <= b && b <= c
    ensures a <= c
  {
    assert c[..|a|] == b[..|a|];
  }

  lemma SliceJoin<T>(s: seq<T>, i: nat, j: nat)
    requires i <= j <= |s|
    ensures s[..i] + s[i..j] == s[..j]
  {
  }

  lemma SliceExtend<T>(s: seq<T>, i: nat, j: nat)
    requires i <= j < |s|
    ensures s[i..j + 1] == s[i..j] + [s[j]]
  {
  }
}
