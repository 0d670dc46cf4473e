// The sub-question splitter: one question is sent to the generative
// service, whose reply (a JSON list of sub-questions, possibly inside a
// markdown fence) replaces the question when it is well formed; the original
// question is kept otherwise. Rate-limit errors and other errors are retried
// on a fixed schedule of pauses, and the per-question results are merged in
// input order.
module QuestionExtender {
  import opened PyText
  import opened JsonValue

  /** max_retries of extend_single_question. */
  const MaxRetries: nat := 3
  /** The pause taken before the first attempt. */
  const RequestGap: nat := 1
  /** The pause after an error that is not a rate-limit error. */
  const ErrorPause: nat := 2

  /** The fields every sub-question must have; create_extension_prompt reads
      the same six fields of the original question. */
  const RequiredKeys: seq<string> := ["id", "title", "type", "refer", "knowledge_points", "source"]

  /** What one call to the service gives: the response text, or the message
      of the exception it raised (a response without text is such an
      exception too). */
  datatype Reply = Answered(text: string) | Failed(message: string)

  // ------------------------------------------------------------- the fence

  const FenceOpen: string := "```json"
  const FenceClose: string := "```"

  /** response_text[7:] when the text starts with "```json". */
  function DropOpening(t: string): (r: string)
    ensures |r| <= |t|
  {
    if StartsWith(t, FenceOpen) then t[|FenceOpen|..] else t
  }

  /** response_text[:-3] when the text ends with "```". */
  function DropClosing(u: string): (r: string)
    ensures |r| <= |u|
  {
    if EndsWith(u, FenceClose) then u[..|u| - |FenceClose|] else u
  }

  /** The text handed to json.loads: the stripped response, minus a leading
      "```json" and a trailing "```" when present, stripped again. */
  function StripFence(text: string): (r: string)
    ensures NoSpaceAtEnds(r) && |r| <= |text|
  {
    Strip(DropClosing(DropOpening(Strip(text))))
  }

  lemma OpeningDropped(body: string)
    ensures DropOpening(FenceOpen + body) == body
  {
    assert (FenceOpen + body)[..|FenceOpen|] == FenceOpen;
  }

  lemma ClosingDropped(body: string)
    ensures DropClosing(body + FenceClose) == body
  {
    var u := body + FenceClose;
    assert u[|u| - |FenceClose|..] == FenceClose;
    assert u[..|u| - |FenceClose|] == body;
  }

  /** A text that begins and ends with a backquote is left whole by strip(). */
  lemma BackquotedStripped(t: string)
    requires t != [] && t[0] == '`' && t[|t| - 1] == '`'
    ensures Strip(t) == t
  {
    StripFixed(t);
  }

  /** A fenced payload comes out as the payload, stripped. */
  lemma FenceRemoved(body: string)
    ensures StripFence(FenceOpen + body + FenceClose) == Strip(body)
  {
    var t := FenceOpen + body + FenceClose;
    assert t == FenceOpen + (body + FenceClose);
    assert t[0] == FenceOpen[0] == '`';
    assert t[|t| - 1] == FenceClose[2] == '`';
    BackquotedStripped(t);
    OpeningDropped(body + FenceClose);
    ClosingDropped(body);
  }

  /** A reply with neither marker at its ends is only stripped. */
  lemma UnfencedOnlyStripped(text: string)
    requires !StartsWith(Strip(text), FenceOpen) && !EndsWith(Strip(text), FenceClose)
    ensures StripFence(text) == Strip(text)
  {
    StripFixed(Strip(text));
  }

  /** Only a closing marker: it alone is removed. */
  lemma ClosingMarkerOnly(body: string)
    requires NoSpaceAtEnds(body) && body != [] && body[0] != '`'
    ensures StripFence(body + FenceClose) == Strip(body)
  {
    var t := body + FenceClose;
    assert t[0] == body[0] && t[|t| - 1] == FenceClose[2];
    StripFixed(t);
    if |FenceOpen| <= |t| {
      assert t[..|FenceOpen|][0] == t[0] && FenceOpen[0] == '`';
    }
    assert DropOpening(t) == t;
    ClosingDropped(body);
  }

  // -------------------------------------------------------- the key check

  /** `key in q` for a decoded value: a key of a dict, a substring of a
      string, an element of a list; None where Python raises TypeError
      (numbers, booleans, None). */
  function KeyIn(key: string, q: Json): (r: Option<bool>)
    ensures r.None? <==> !(q.Obj? || q.Str? || q.Arr?)
    ensures q.Obj? ==> r == Some(HasKey(q.members, key))
  {
    match q
    case Obj(members) => Some(HasKey(members, key))
    case Str(s) => Some(Contains(s, key))
    case Arr(items) => Some(Str(key) in items)
    case _ => None
  }

  /** `all(key in q for key in RequiredKeys)`; None where the first `in`
      raises. */
  function ItemKeys(q: Json): (r: Option<bool>)
    ensures r.None? <==> KeyIn(RequiredKeys[0], q).None?
    ensures r == Some(true) <==> forall k :: 0 <= k < |RequiredKeys| ==> KeyIn(RequiredKeys[k], q) == Some(true)
  {
    if q.Obj? || q.Str? || q.Arr? then
      Some(forall k :: 0 <= k < |RequiredKeys| ==> KeyIn(RequiredKeys[k], q) == Some(true))
    else None
  }

  /** How the loop over the returned items ends. */
  datatype ItemsVerdict =
    | Complete     // every item has every required field
    | Incomplete   // an item lacks a field: the original question is kept
    | NotIterable  // an item is a number, boolean or null: TypeError

  /** The loop over the returned items, which stops at the first item that
      lacks a field or cannot be searched. */
  function CheckItems(items: seq<Json>): (r: ItemsVerdict)
    ensures r == Complete <==> forall k :: 0 <= k < |items| ==> ItemKeys(items[k]) == Some(true)
  {
    if items == [] then Complete
    else match ItemKeys(items[0])
      case None => NotIterable
      case Some(present) => if present then CheckItems(items[1..]) else Incomplete
  }

  /** The item that stops the loop decides the verdict. */
  lemma {:induction false} StoppedAt(items: seq<Json>, k: nat)
    requires k < |items| && ItemKeys(items[k]) != Some(true)
    requires forall j :: 0 <= j < k ==> ItemKeys(items[j]) == Some(true)
    ensures CheckItems(items) == if ItemKeys(items[k]).None? then NotIterable else Incomplete
  {
    if k > 0 {
      assert ItemKeys(items[0]) == Some(true);
      assert items[1..][k - 1] == items[k];
      StoppedAt(items[1..], k - 1);
    }
  }

  /** A dict item has every field exactly when each is one of its keys. */
  lemma DictItemComplete(members: seq<(string, Json)>)
    ensures ItemKeys(Obj(members)) == Some(true) <==>
            forall k :: 0 <= k < |RequiredKeys| ==> HasKey(members, RequiredKeys[k])
  {
  }

  // ---------------------------------------------------------- one attempt

  /** create_extension_prompt can read all six fields of the question. */
  predicate PromptBuilds(question: Json) {
    question.Obj? && forall k :: 0 <= k < |RequiredKeys| ==> HasKey(question.members, RequiredKeys[k])
  }

  /** question['id'] can be read, as the log messages do. */
  predicate IdReadable(question: Json) {
    question.Obj? && HasKey(question.members, "id")
  }

  /** The test of the except-branch: "429" in the message, or "rate limit"
      in its lower-cased form. */
  predicate IsRateLimit(message: string) {
    Contains(message, "429") || Contains(Lower(message), "rate limit")
  }

  /** How one attempt ends. */
  datatype AttemptEnd =
    | Finished(result: seq<Json>)  // the attempt returns this list
    | QuotaHit                     // a rate-limit error
    | Errored                      // any other error
    | Crashed                      // the error handler itself raises

  /** A question whose prompt can be built has a readable id too. */
  lemma PromptNeedsId(question: Json)
    requires PromptBuilds(question)
    ensures IdReadable(question)
  {
    assert RequiredKeys[0] == "id";
  }

  /** The inner try-block on the decoded reply (None: json.loads raised
      JSONDecodeError): a non-list or a list with an incomplete item keeps
      the original question, a complete list is returned, and an item that
      cannot be searched raises TypeError into the outer handler. */
  function AnswerResult(question: Json, decoded: Option<Json>): (r: AttemptEnd)
    ensures r.Finished? || r.Errored?
    ensures r.Errored? <==> decoded.Some? && decoded.value.Arr? && CheckItems(decoded.value.items) == NotIterable
    ensures r.Finished? && r.result != [question] ==>
              decoded == Some(Arr(r.result)) && CheckItems(r.result) == Complete
  {
    match decoded
    case None => Finished([question])
    case Some(v) =>
      if !v.Arr? then Finished([question])
      else match CheckItems(v.items)
        case Complete => Finished(v.items)
        case Incomplete => Finished([question])
        case NotIterable => Errored
  }

  /** One attempt: build the prompt, call the service, decode the fenced
      reply and check its shape. A prompt that cannot be built is an error
      whose message (the missing key, or a TypeError) is not a rate-limit
      message; when even question['id'] cannot be read, the handler's log
      line raises out of the function. */
  function AttemptResult(question: Json, reply: Reply, parse: string -> Option<Json>): (r: AttemptEnd)
    ensures r.Crashed? <==> !IdReadable(question)
    ensures r.QuotaHit? ==> reply.Failed? && IsRateLimit(reply.message)
    ensures r.Finished? ==> PromptBuilds(question) && reply.Answered?
    ensures r.Finished? && r.result != [question] ==>
              parse(StripFence(reply.text)) == Some(Arr(r.result)) && CheckItems(r.result) == Complete
  {
    if !PromptBuilds(question) then
      (if IdReadable(question) then Errored else Crashed)
    else
      PromptNeedsId(question);
      match reply
      case Failed(message) => if IsRateLimit(message) then QuotaHit else Errored
      case Answered(text) => AnswerResult(question, parse(StripFence(text)))
  }

  /** A reply json.loads rejects keeps the original question. */
  lemma UndecodableKeepsQuestion(question: Json, text: string, parse: string -> Option<Json>)
    requires PromptBuilds(question) && parse(StripFence(text)).None?
    ensures AttemptResult(question, Answered(text), parse) == Finished([question])
  {
  }

  /** A decoded value that is not a list keeps the original question. */
  lemma NotAListKeepsQuestion(question: Json, text: string, parse: string -> Option<Json>)
    requires PromptBuilds(question)
    requires parse(StripFence(text)).Some? && !parse(StripFence(text)).value.Arr?
    ensures AttemptResult(question, Answered(text), parse) == Finished([question])
  {
  }

  /** A list whose first failing item lacks a field keeps the original
      question; one whose first failing item is not searchable is an error. */
  lemma FailingItemDecides(question: Json, text: string, parse: string -> Option<Json>, items: seq<Json>, k: nat)
    requires PromptBuilds(question) && parse(StripFence(text)) == Some(Arr(items))
    requires k < |items| && ItemKeys(items[k]) != Some(true)
    requires forall j :: 0 <= j < k ==> ItemKeys(items[j]) == Some(true)
    ensures AttemptResult(question, Answered(text), parse) ==
            if ItemKeys(items[k]).None? then Errored else Finished([question])
  {
    StoppedAt(items, k);
  }

  /** A list whose every item has every field is returned as it is,
      the empty list included. */
  lemma CompleteListKept(question: Json, text: string, parse: string -> Option<Json>, items: seq<Json>)
    requires PromptBuilds(question) && parse(StripFence(text)) == Some(Arr(items))
    requires forall k :: 0 <= k < |items| ==> ItemKeys(items[k]) == Some(true)
    ensures AttemptResult(question, Answered(text), parse) == Finished(items)
  {
  }

  /** How each attempt ends, from the reply it gets. */
  function Classify(question: Json, replies: nat -> Reply, parse: string -> Option<Json>): nat -> AttemptEnd {
    (a: nat) => AttemptResult(question, replies(a), parse)
  }

  /** `ends` says how each attempt ends given the reply it gets. */
  ghost predicate Classifies(question: Json, replies: nat -> Reply, parse: string -> Option<Json>, ends: nat -> AttemptEnd) {
    forall a: nat {:trigger AttemptResult(question, replies(a), parse)} ::
      ends(a) == AttemptResult(question, replies(a), parse)
  }

  lemma ClassifyClassifies(question: Json, replies: nat -> Reply, parse: string -> Option<Json>)
    ensures Classifies(question, replies, parse, Classify(question, replies, parse))
  {
  }

  // -------------------------------------------------------- the retry run

  /** An attempt that ends the run whatever attempt it is. */
  predicate Decisive(end: AttemptEnd) {
    end.Finished? || end.Crashed?
  }

  /** The first decisive attempt at or after `from`. */
  function FirstDecisiveFrom(ends: nat -> AttemptEnd, from: nat): (r: Option<nat>)
    ensures r.Some? ==> from <= r.value < MaxRetries && Decisive(ends(r.value))
    ensures r.Some? ==> forall a :: from <= a < r.value ==> !Decisive(ends(a))
    ensures r.None? ==> forall a :: from <= a < MaxRetries ==> !Decisive(ends(a))
    decreases MaxRetries - from
  {
    if from >= MaxRetries then None
    else if Decisive(ends(from)) then Some(from)
    else FirstDecisiveFrom(ends, from + 1)
  }

  function FirstDecisive(ends: nat -> AttemptEnd): Option<nat> {
    FirstDecisiveFrom(ends, 0)
  }

  /** What extend_single_question gives: a list of questions, or an
      exception that leaves the function. */
  datatype Extension = Extended(questions: seq<Json>) | Raised

  /** The run's outcome: that of the first decisive attempt; when every
      attempt errs, the original question. */
  function Outcome(question: Json, ends: nat -> AttemptEnd): Extension {
    match FirstDecisive(ends)
    case Some(a) => if ends(a).Finished? then Extended(ends(a).result) else Raised
    case None => Extended([question])
  }

  /** The number of attempts made. */
  function AttemptsMade(ends: nat -> AttemptEnd): (r: nat)
    ensures 1 <= r <= MaxRetries
  {
    match FirstDecisive(ends)
    case Some(a) => a + 1
    case None => MaxRetries
  }

  /** The length of the pause after a failed attempt `a`. */
  function PauseLength(end: AttemptEnd, a: nat): nat {
    if end.QuotaHit? then (a + 1) * 5 else ErrorPause
  }

  /** The pause after attempt `a`: one after an error when another attempt
      remains, none otherwise. */
  function PauseAfter(end: AttemptEnd, a: nat): (r: seq<nat>)
    ensures |r| <= 1
  {
    if a < MaxRetries - 1 && (end.QuotaHit? || end.Errored?) then [PauseLength(end, a)] else []
  }

  /** The pauses taken during the first n attempts. */
  function PausesBefore(ends: nat -> AttemptEnd, n: nat): (r: seq<nat>)
    ensures |r| <= n
  {
    if n == 0 then [] else PausesBefore(ends, n - 1) + PauseAfter(ends(n - 1), n - 1)
  }

  /** Every pause of extend_single_question: the opening one, then those
      between attempts. */
  function Sleeps(ends: nat -> AttemptEnd): seq<nat> {
    [RequestGap] + PausesBefore(ends, AttemptsMade(ends))
  }

  /** Before the first decisive attempt, every attempt below the last is
      followed by its pause. */
  lemma {:induction false} PausesUpTo(ends: nat -> AttemptEnd, n: nat)
    requires n < MaxRetries
    requires forall a :: 0 <= a < n ==> !Decisive(ends(a))
    ensures |PausesBefore(ends, n)| == n
    ensures forall a :: 0 <= a < n ==> PausesBefore(ends, n)[a] == PauseLength(ends(a), a)
  {
    if n > 0 {
      PausesUpTo(ends, n - 1);
      assert PauseAfter(ends(n - 1), n - 1) == [PauseLength(ends(n - 1), n - 1)];
    }
  }

  /** The pause schedule: one pause before each attempt, one second before
      the first; before attempt a > 0, (a * 5) seconds when attempt a - 1
      hit the rate limit and 2 seconds when it failed otherwise. */
  lemma SleepSchedule(ends: nat -> AttemptEnd)
    ensures |Sleeps(ends)| == AttemptsMade(ends) && Sleeps(ends)[0] == RequestGap
    ensures forall a :: 1 <= a < AttemptsMade(ends) ==>
              (ends(a - 1).QuotaHit? || ends(a - 1).Errored?) &&
              Sleeps(ends)[a] == PauseLength(ends(a - 1), a - 1)
  {
    var n := AttemptsMade(ends);
    PausesUpTo(ends, n - 1);
    assert PausesBefore(ends, n) == PausesBefore(ends, n - 1);
  }

  /** Three rate-limit errors: pauses of 1, 5 and 10 seconds, then the
      original question. */
  lemma QuotaEveryTime(question: Json, ends: nat -> AttemptEnd)
    requires forall a :: 0 <= a < MaxRetries ==> ends(a) == QuotaHit
    ensures Outcome(question, ends) == Extended([question])
    ensures AttemptsMade(ends) == 3 && Sleeps(ends) == [1, 5, 10]
  {
    SleepSchedule(ends);
  }

  /** Three other errors: pauses of 1, 2 and 2 seconds, then the original
      question. */
  lemma ErrorEveryTime(question: Json, ends: nat -> AttemptEnd)
    requires forall a :: 0 <= a < MaxRetries ==> ends(a) == Errored
    ensures Outcome(question, ends) == Extended([question])
    ensures AttemptsMade(ends) == 3 && Sleeps(ends) == [1, 2, 2]
  {
    SleepSchedule(ends);
  }

  /** An attempt that returns (a decode failure included) ends the run at
      once: no attempt follows it. */
  lemma FinishedStops(question: Json, ends: nat -> AttemptEnd, a: nat)
    requires a < MaxRetries && ends(a).Finished?
    requires forall b :: 0 <= b < a ==> !Decisive(ends(b))
    ensures Outcome(question, ends) == Extended(ends(a).result)
    ensures AttemptsMade(ends) == a + 1
  {
    assert FirstDecisiveFrom(ends, a) == Some(a);
    if a >= 1 { assert FirstDecisiveFrom(ends, a - 1) == Some(a); }
    if a >= 2 { assert FirstDecisiveFrom(ends, a - 2) == Some(a); }
  }

  /** The run gives the original question, an attempt's list, or an
      exception. */
  lemma OutcomeIsAnAttemptsList(question: Json, ends: nat -> AttemptEnd)
    ensures Outcome(question, ends) == Extended([question]) || Outcome(question, ends) == Raised ||
            exists a :: 0 <= a < MaxRetries && ends(a) == Finished(Outcome(question, ends).questions)
  {
  }

  /** The run raises exactly when question['id'] cannot be read, and then
      only after the opening pause. */
  lemma RaisesIffNoId(question: Json, replies: nat -> Reply, parse: string -> Option<Json>)
    ensures Outcome(question, Classify(question, replies, parse)) == Raised <==> !IdReadable(question)
    ensures !IdReadable(question) ==> Sleeps(Classify(question, replies, parse)) == [RequestGap]
  {
    var ends := Classify(question, replies, parse);
    if !IdReadable(question) {
      assert ends(0) == AttemptResult(question, replies(0), parse);
      assert FirstDecisive(ends) == Some(0);
    } else if FirstDecisive(ends).Some? {
      var a := FirstDecisive(ends).value;
      assert ends(a) == AttemptResult(question, replies(a), parse);
    }
  }

  /** A question whose id is readable but which lacks another field can
      never be sent: every attempt errs, and the question is kept. */
  lemma IncompleteQuestionKept(question: Json, replies: nat -> Reply, parse: string -> Option<Json>)
    requires IdReadable(question) && !PromptBuilds(question)
    ensures Outcome(question, Classify(question, replies, parse)) == Extended([question])
    ensures Sleeps(Classify(question, replies, parse)) == [1, 2, 2]
  {
    var ends := Classify(question, replies, parse);
    forall a | 0 <= a < MaxRetries
      ensures ends(a) == Errored
    {
      assert ends(a) == AttemptResult(question, replies(a), parse);
    }
    ErrorEveryTime(question, ends);
  }

  /** No attempt follows the last. */
  lemma NoneDecisiveAfterLast(ends: nat -> AttemptEnd)
    ensures FirstDecisiveFrom(ends, MaxRetries).None?
  {
  }

  /** One attempt of extend_single_question: build the prompt, call the
      service, and handle its reply. */
  method RunAttempt(question: Json, replies: nat -> Reply, parse: string -> Option<Json>,
                    ghost ends: nat -> AttemptEnd, attempt: nat) returns (end: AttemptEnd)
    requires Classifies(question, replies, parse, ends)
    ensures end == ends(attempt)
  {
    if !PromptBuilds(question) {
      end := if IdReadable(question) then Errored else Crashed;
      assert end == AttemptResult(question, replies(attempt), parse);
      return;
    }
    var reply := replies(attempt);
    match reply {
      case Failed(message) =>
        end := if IsRateLimit(message) then QuotaHit else Errored;
      case Answered(text) =>
        var decoded := parse(StripFence(text));
        end := HandleAnswer(question, decoded);
    }
    assert end == AttemptResult(question, replies(attempt), parse);
  }

  /** The inner try-block: the shape check of the decoded reply, stopping
      at the first item that lacks a field. */
  method HandleAnswer(question: Json, decoded: Option<Json>) returns (end: AttemptEnd)
    ensures end == AnswerResult(question, decoded)
  {
    if decoded.None? || !decoded.value.Arr? {
      return Finished([question]);
    }
    var items := decoded.value.items;
    for i := 0 to |items|
      invariant forall j :: 0 <= j < i ==> ItemKeys(items[j]) == Some(true)
    {
      var present := ItemKeys(items[i]);
      if present.None? {
        StoppedAt(items, i);
        return Errored;
      }
      if !present.value {
        StoppedAt(items, i);
        return Finished([question]);
      }
    }
    return Finished(items);
  }

  /** extend_single_question: the opening pause, then up to MaxRetries
      attempts; a returning attempt ends the run, an error pauses and
      retries while attempts remain, and the last error keeps the original
      question. */
  method ExtendSingle(question: Json, replies: nat -> Reply, parse: string -> Option<Json>,
                      ghost ends: nat -> AttemptEnd) returns (outcome: Extension, sleeps: seq<nat>)
    requires Classifies(question, replies, parse, ends)
    ensures outcome == Outcome(question, ends)
    ensures sleeps == Sleeps(ends)
  {
    sleeps := [RequestGap];
    for attempt := 0 to MaxRetries
      invariant FirstDecisive(ends) == FirstDecisiveFrom(ends, attempt)
      invariant sleeps == [RequestGap] + PausesBefore(ends, attempt)
    {
      var end := RunAttempt(question, replies, parse, ends, attempt);
      if end.Finished? {
        return Extended(end.result), sleeps;
      }
      if end.Crashed? {
        return Raised, sleeps;
      }
      if attempt == MaxRetries - 1 {
        NoneDecisiveAfterLast(ends);
        return Extended([question]), sleeps;
      }
      sleeps := sleeps + [PauseLength(end, attempt)];
    }
    outcome := Extended([question]);
  }

  // ------------------------------------------------------------ the merge

  /** The list a task contributes: its questions, or the original question
      when the task raised. */
  function Contribution(question: Json, result: Extension): (r: seq<Json>)
    ensures result.Raised? ==> r == [question]
    ensures result.Extended? ==> r == result.questions
  {
    match result
    case Raised => [question]
    case Extended(qs) => qs
  }

  /** The contributions concatenated in input order. */
  function Merge(questions: seq<Json>, results: seq<Extension>): seq<Json>
    requires |results| == |questions|
  {
    if questions == [] then []
    else
      var n := |questions| - 1;
      Merge(questions[..n], results[..n]) + Contribution(questions[n], results[n])
  }

  /** Merging two runs one after the other is merging them together. */
  lemma {:induction false} MergeAppend(q1: seq<Json>, r1: seq<Extension>, q2: seq<Json>, r2: seq<Extension>)
    requires |r1| == |q1| && |r2| == |q2|
    ensures Merge(q1 + q2, r1 + r2) == Merge(q1, r1) + Merge(q2, r2)
    decreases |q2|
  {
    if q2 != [] {
      var n := |q2| - 1;
      var q, r := q1 + q2, r1 + r2;
      var m := |q| - 1;
      assert q[..m] == q1 + q2[..n];
      assert r[..m] == r1 + r2[..n];
      assert q[m] == q2[n] && r[m] == r2[n];
      MergeAppend(q1, r1, q2[..n], r2[..n]);
      assert Merge(q, r) == Merge(q[..m], r[..m]) + Contribution(q[m], r[m]);
    } else {
      assert q1 + q2 == q1 && r1 + r2 == r1;
    }
  }

  /** When every task raised or kept its question, the merge is the input. */
  lemma {:induction false} MergeAllKept(questions: seq<Json>, results: seq<Extension>)
    requires |results| == |questions|
    requires forall i :: 0 <= i < |questions| ==> results[i] == Raised || results[i] == Extended([questions[i]])
    ensures Merge(questions, results) == questions
  {
    if questions != [] {
      var n := |questions| - 1;
      MergeAllKept(questions[..n], results[..n]);
      assert questions[..n] + [questions[n]] == questions;
    }
  }

  /** The merge holds as many questions as the contributions together. */
  function ContributionCount(questions: seq<Json>, results: seq<Extension>): nat
    requires |results| == |questions|
  {
    if questions == [] then 0
    else
      var n := |questions| - 1;
      ContributionCount(questions[..n], results[..n]) + |Contribution(questions[n], results[n])|
  }

  lemma {:induction false} MergeLength(questions: seq<Json>, results: seq<Extension>)
    requires |results| == |questions|
    ensures |Merge(questions, results)| == ContributionCount(questions, results)
  {
    if questions != [] {
      var n := |questions| - 1;
      MergeLength(questions[..n], results[..n]);
    }
  }

  /** The outcome of each question's task. */
  function Outcomes(questions: seq<Json>, replies: nat -> nat -> Reply, parse: string -> Option<Json>): (r: seq<Extension>)
    ensures |r| == |questions|
  {
    seq(|questions|, i requires 0 <= i < |questions| => Outcome(questions[i], Classify(questions[i], replies(i), parse)))
  }

  /** extend_questions, with the tasks run one after another: each task's
      questions appended in input order, the original question for a task
      that raised. */
  method ExtendQuestions(questions: seq<Json>, replies: nat -> nat -> Reply, parse: string -> Option<Json>)
    returns (extended: seq<Json>)
    ensures extended == Merge(questions, Outcomes(questions, replies, parse))
  {
    ghost var all := Outcomes(questions, replies, parse);
    extended := [];
    for i := 0 to |questions|
      invariant extended == Merge(questions[..i], all[..i])
    {
      ClassifyClassifies(questions[i], replies(i), parse);
      var result, _ := ExtendSingle(questions[i], replies(i), parse, Classify(questions[i], replies(i), parse));
      assert all[i] == result;
      assert questions[..i + 1][..i] == questions[..i] && all[..i + 1][..i] == all[..i];
      match result {
        case Raised => extended := extended + [questions[i]];
        case Extended(qs) => extended := extended + qs;
      }
    }
    assert questions[..|questions|] == questions && all[..|questions|] == all;
  }

  // ------------------------------------------------------------- the file

  const GeneratedAt: string := "2025-01-25"
  const Description: string := "Extended questions with sub-questions split out"

  /** The document save_extended_questions writes. */
  function SavedDocument(questions: seq<Json>): Json {
    Obj([("questions", Arr(questions)),
         ("metadata", Obj([("total_questions", Num(|questions|)),
                           ("generated_at", Str(GeneratedAt)),
                           ("description", Str(Description))]))])
  }

  /** data['questions'] of a loaded document; None where it raises. */
  function QuestionsOf(doc: Json): Option<Json> {
    if doc.Obj? then Lookup(doc.members, "questions") else None
  }

  /** The saved count is the number of questions, and loading the document
      back gives the questions saved. */
  lemma SavedCount(questions: seq<Json>)
    ensures Lookup(SavedDocument(questions).members, "metadata").Some?
    ensures var meta := Lookup(SavedDocument(questions).members, "metadata").value;
            meta.Obj? && Lookup(meta.members, "total_questions") == Some(Num(|questions|))
    ensures QuestionsOf(SavedDocument(questions)) == Some(Arr(questions))
  {
    var doc := SavedDocument(questions).members;
    var meta := doc[1].1.members;
    assert doc[..1] == [doc[0]];
    assert Lookup(doc[..1], "questions") == Some(Arr(questions));
    assert meta[..2] == [meta[0], meta[1]] && meta[..2][..1] == [meta[0]];
    assert Lookup(meta[..1], "total_questions") == Some(Num(|questions|));
    assert Lookup(meta[..2], "total_questions") == Some(Num(|questions|));
  }
}
