// What PDFParser.analyze_pdf_with_ai does with the text the AI service
// returns: build the ordered list of JSON candidates, decode the first one
// that parses, coerce the decoded value to a question list and repair or drop
// every entry (src/pdf_parser.py:165-235). json.loads is the parameter
// `parse`, an arbitrary partial function from text to a decoded value.
module PdfResponse {
  import opened PyText
  import opened JsonValue

  /** One question record as analyze_pdf_with_ai builds it; `source` is
      added later by parse_single_pdf. */
  datatype Question = Question(
    id: Json,
    title: string,
    kind: string,
    refer: string,
    knowledgePoints: seq<Json>,
    source: Option<string>)

  /** f'Q{n:03d}' */
  function FormatId(n: nat): (r: string)
    ensures |r| >= 4 && r[0] == 'Q'
    ensures n < 1000 ==> |r| == 4
  {
    NatToStringShort(n);
    "Q" + ZeroPad(NatToString(n), 3)
  }

  /** The number can be read back from an id, so different numbers give
      different ids. */
  lemma FormatIdValue(n: nat)
    ensures forall k :: 0 <= k < |FormatId(n)[1..]| ==> IsDigit(FormatId(n)[1..][k])
    ensures DigitsValue(FormatId(n)[1..]) == n
  {
    var d := NatToString(n);
    assert FormatId(n)[1..] == ZeroPad(d, 3);
    ZeroPadValue(d, 3);
    DigitsValueOfNatToString(n);
  }

  lemma FormatIdInjective(m: nat, n: nat)
    requires FormatId(m) == FormatId(n)
    ensures m == n
  {
    FormatIdValue(m);
    FormatIdValue(n);
  }

  const JsonFence: string := "```json"
  const CloseFence: string := "```"

  /** Candidate 1: the stripped text between the first "```json" and the
      next "```" after it, when that interior is not empty. */
  function FencedCandidate(text: string): (r: Option<string>)
    ensures r.Some? ==> Contains(text, JsonFence)
    ensures r.Some? ==> NoSpaceAtEnds(r.value)
  {
    if !Contains(text, JsonFence) then None
    else
      var start := Find(text, JsonFence) + |JsonFence|;
      var end := FindFrom(text, CloseFence, start);
      if end > start then Some(Strip(text[start..end])) else None
  }

  /** Candidate 2: from the first '{' to the last '}' inclusive, when both
      occur (empty when the last '}' comes before the first '{'). */
  function BraceCandidate(text: string): (r: Option<string>)
    ensures r.Some? <==> '{' in text && '}' in text
    ensures r.Some? && r.value != [] ==> r.value[0] == '{' && r.value[|r.value| - 1] == '}'
  {
    if '{' in text && '}' in text then
      var k :| 0 <= k < |text| && text[k] == '{';
      assert text[k..k + 1] == "{";
      ContainsIff(text, "{", k);
      var i := Find(text, "{");
      var j := RFindChar(text, '}');
      Some(Slice(text, i, j + 1))
    else None
  }

  /** The first "```json" of a + "```json" + rest is the one after a, when
      a holds none: the marker cannot overlap itself. */
  lemma FenceAfter(a: string, rest: string)
    requires !Contains(a, JsonFence)
    ensures Contains(a + JsonFence + rest, JsonFence) && Find(a + JsonFence + rest, JsonFence) == |a|
  {
    var f := JsonFence + rest;
    var t := a + f;
    assert t == a + JsonFence + rest;
    assert t[|a|..|a| + |JsonFence|] == JsonFence;
    forall j | 0 <= j < |a|
      ensures !OccursAt(t, JsonFence, j)
    {
      if j + |JsonFence| <= |a| {
        assert a[j..j + |JsonFence|] == t[j..j + |JsonFence|];
        assert !OccursAt(a, JsonFence, j);
      } else if j + |JsonFence| <= |t| {
        var w := t[j..j + |JsonFence|];
        var m := |a| - j;
        if m <= 3 {
          assert w[3] == f[3 - m] == '`';
        } else {
          assert w[m] == f[0] == '`';
        }
      }
    }
    FindFromIs(t, JsonFence, 0, |a|);
  }

  /** A fenced block: the candidate is its stripped interior, and there is
      none when the interior is empty. */
  lemma FencedInterior(a: string, p: string, b: string)
    requires !Contains(a, JsonFence) && '`' !in p
    ensures FencedCandidate(a + JsonFence + p + CloseFence + b) == if p == [] then None else Some(Strip(p))
  {
    var u := p + CloseFence + b;
    var t := a + JsonFence + u;
    assert t == a + JsonFence + p + CloseFence + b;
    FenceAfter(a, u);
    var start := |a| + |JsonFence|;
    var end := start + |p|;
    assert t[start..] == u;
    assert t[end..end + |CloseFence|] == u[|p|..|p| + |CloseFence|] == CloseFence;
    forall j | start <= j < end
      ensures !OccursAt(t, CloseFence, j)
    {
      assert t[j] == u[j - start] == p[j - start];
    }
    FindFromIs(t, CloseFence, start, end);
    assert t[start..end] == u[..|p|] == p;
  }

  /** A "```json" that no "```" follows gives no fenced candidate. */
  lemma FenceUnclosed(a: string, rest: string)
    requires !Contains(a, JsonFence) && !Contains(rest, CloseFence)
    ensures FencedCandidate(a + JsonFence + rest).None?
  {
    var t := a + JsonFence + rest;
    FenceAfter(a, rest);
    var start := |a| + |JsonFence|;
    var end := FindFrom(t, CloseFence, start);
    if end != -1 {
      assert t[end..end + |CloseFence|] == rest[end - start..end - start + |CloseFence|];
      assert OccursAt(rest, CloseFence, end - start);
      assert false;
    }
  }

  /** The brace candidate runs from the first '{' to the last '}', both
      included, and is empty when the last '}' comes first. */
  lemma BraceSpan(text: string, i: nat, j: nat)
    requires i < |text| && text[i] == '{' && '{' !in text[..i]
    requires j < |text| && text[j] == '}' && '}' !in text[j + 1..]
    ensures BraceCandidate(text) == Some(if i <= j then text[i..j + 1] else [])
  {
    assert text[i..i + 1] == "{";
    forall k | 0 <= k < i
      ensures !OccursAt(text, "{", k)
    {
      assert text[k] == text[..i][k];
    }
    FindFromIs(text, "{", 0, i);
  }

  /** The candidates in the order they are tried: fenced block, braces,
      whole text. */
  function Candidates(text: string): (r: seq<string>)
    ensures 1 <= |r| <= 3 && r[|r| - 1] == text
    ensures |r| == 1 + (if FencedCandidate(text).Some? then 1 else 0) + (if BraceCandidate(text).Some? then 1 else 0)
    ensures FencedCandidate(text).Some? ==> r[0] == FencedCandidate(text).value
    ensures BraceCandidate(text).Some? ==> r[|r| - 2] == BraceCandidate(text).value
  {
    var fenced := FencedCandidate(text);
    var braced := BraceCandidate(text);
    (if fenced.Some? then [fenced.value] else [])
    + (if braced.Some? then [braced.value] else [])
    + [text]
  }

  /** Index of the first candidate at or after `from` that parses. */
  function FirstParsingFrom(cands: seq<string>, parse: string -> Option<Json>, from: nat): (r: Option<nat>)
    ensures r.Some? ==> from <= r.value < |cands| && parse(cands[r.value]).Some?
    ensures r.Some? ==> forall j :: from <= j < r.value ==> parse(cands[j]).None?
    ensures r.None? ==> forall j :: from <= j < |cands| ==> parse(cands[j]).None?
    decreases |cands| - from
  {
    if from >= |cands| then None
    else if parse(cands[from]).Some? then Some(from)
    else FirstParsingFrom(cands, parse, from + 1)
  }

  function FirstParsing(cands: seq<string>, parse: string -> Option<Json>): Option<nat> {
    FirstParsingFrom(cands, parse, 0)
  }

  /** The candidate loop with its break: `result` starts as None (JSON null)
      and becomes the decoding of the first candidate that parses. */
  method ParseFirstCandidate(cands: seq<string>, parse: string -> Option<Json>) returns (result: Json)
    ensures FirstParsing(cands, parse).Some? ==>
              result == parse(cands[FirstParsing(cands, parse).value]).value
    ensures FirstParsing(cands, parse).None? ==> result == Null
  {
    result := Null;
    var i := 0;
    while i < |cands|
      invariant 0 <= i <= |cands|
      invariant forall j :: 0 <= j < i ==> parse(cands[j]).None?
      invariant result == Null
    {
      var p := parse(cands[i]);
      if p.Some? {
        result := p.value;
        return;
      }
      i := i + 1;
    }
  }

  /** The decoded payload of a stripped response, or None for a decode
      failure: no candidate parses, or the first that parses is `null`. */
  function Decode(text: string, parse: string -> Option<Json>): (r: Option<Json>)
    ensures r.Some? ==> r.value != Null
    ensures r.Some? ==> exists k :: 0 <= k < |Candidates(text)| && parse(Candidates(text)[k]) == Some(r.value)
  {
    var cands := Candidates(text);
    match FirstParsing(cands, parse)
    case None => None
    case Some(i) => if parse(cands[i]).value == Null then None else Some(parse(cands[i]).value)
  }

  /** The entries of the decoded payload's `questions` list, or none when the
      payload is not a dict, has no `questions`, or it is not a list. */
  function QuestionEntries(v: Json): (r: seq<Json>)
    ensures r != [] ==> v.Obj? && Lookup(v.members, "questions") == Some(Arr(r))
  {
    if v.Obj? && HasKey(v.members, "questions") && Get(v.members, "questions", Null).Arr?
    then Get(v.members, "questions", Null).items
    else []
  }

  /** knowledge_points coerced to a list: a list stays, a bare string is
      wrapped, anything else becomes ['Uncategorized']. */
  function KnowledgePointList(kp: Json): (r: seq<Json>)
    ensures kp.Arr? ==> r == kp.items
    ensures !kp.Arr? ==> |r| == 1
    ensures kp.Str? ==> r == [kp]
    ensures !kp.Arr? && !kp.Str? ==> r == [Str("Uncategorized")]
    ensures r == [] ==> kp == Arr([])
  {
    match kp
    case Arr(items) => items
    case Str(s) => [Str(s)]
    case _ => [Str("Uncategorized")]
  }

  /** A text field: str() of the value, or of the default when absent, stripped. */
  function TextField(members: seq<(string, Json)>, key: string, default: string): (r: string)
    ensures NoSpaceAtEnds(r)
    ensures !HasKey(members, key) ==> r == Strip(default)
  {
    Strip(PyStr(Get(members, key, Str(default))))
  }

  /** A string field comes out as that string, stripped. */
  lemma TextFieldOfString(members: seq<(string, Json)>, key: string, default: string, s: string)
    requires Lookup(members, key) == Some(Str(s))
    ensures TextField(members, key, default) == Strip(s)
  {
  }

  /** The dict built for entry number `index` of a question list: the id, or
      one made from the position; title, type and refer through str() and
      strip() with their defaults; knowledge_points coerced to a list. */
  function Repair(m: seq<(string, Json)>, index: nat): (q: Question)
    ensures NoSpaceAtEnds(q.title) && NoSpaceAtEnds(q.kind) && NoSpaceAtEnds(q.refer)
    ensures q.source.None?
  {
    var id := Get(m, "id", Str(FormatId(index + 1)));
    var title := TextField(m, "title", "");
    var kind := TextField(m, "type", "Unknown");
    var refer := TextField(m, "refer", "Uncategorized");
    var kps := KnowledgePointList(Get(m, "knowledge_points", Arr([Str("Uncategorized")])));
    Question(id, title, kind, refer, kps, None)
  }

  /** The defaults of a repaired entry: an absent id is made from the
      position, an absent title is empty, an absent type is "Unknown", an
      absent refer and an absent knowledge_points are "Uncategorized". */
  lemma RepairDefaults(m: seq<(string, Json)>, index: nat)
    ensures !HasKey(m, "id") ==> Repair(m, index).id == Str(FormatId(index + 1))
    ensures !HasKey(m, "title") ==> Repair(m, index).title == ""
    ensures !HasKey(m, "type") ==> Repair(m, index).kind == "Unknown"
    ensures !HasKey(m, "refer") ==> Repair(m, index).refer == "Uncategorized"
    ensures !HasKey(m, "knowledge_points") ==> Repair(m, index).knowledgePoints == [Str("Uncategorized")]
  {
    StripFixed("");
    StripFixed("Unknown");
    StripFixed("Uncategorized");
  }

  /** The repaired form of entry number `index`, or None when it is dropped:
      not a dict, or its title is empty once stripped. */
  function FixQuestion(entry: Json, index: nat): (r: Option<Question>)
    ensures r.Some? <==> entry.Obj? && Repair(entry.members, index).title != []
    ensures r.Some? ==> r.value == Repair(entry.members, index) && r.value.title != []
  {
    if entry.Obj? && Repair(entry.members, index).title != []
    then Some(Repair(entry.members, index))
    else None
  }

  /** The values `fix` yields for the elements of xs (each with its
      position), in order, the elements it rejects left out. */
  function Kept<A, B>(xs: seq<A>, fix: (A, nat) -> Option<B>): (r: seq<B>)
    ensures |r| <= |xs|
  {
    if xs == [] then []
    else
      var n := |xs| - 1;
      var f := fix(xs[n], n);
      Kept(xs[..n], fix) + (if f.Some? then [f.value] else [])
  }

  lemma KeptPrefixStep<A, B>(xs: seq<A>, fix: (A, nat) -> Option<B>, i: nat)
    requires i < |xs|
    ensures var f := fix(xs[i], i);
            Kept(xs[..i + 1], fix) == Kept(xs[..i], fix) + (if f.Some? then [f.value] else [])
  {
    assert xs[..i + 1][..i] == xs[..i];
  }

  lemma {:induction false} KeptKeeps<A, B>(xs: seq<A>, fix: (A, nat) -> Option<B>, k: nat, y: B)
    requires k < |xs| && fix(xs[k], k) == Some(y)
    ensures y in Kept(xs, fix)
  {
    var n := |xs| - 1;
    var f := fix(xs[n], n);
    var tail := if f.Some? then [f.value] else [];
    assert Kept(xs, fix) == Kept(xs[..n], fix) + tail;
    if k < n {
      assert xs[..n][k] == xs[k];
      KeptKeeps(xs[..n], fix, k, y);
    } else {
      assert tail == [y];
    }
  }

  lemma {:induction false} KeptOnlyKept<A, B>(xs: seq<A>, fix: (A, nat) -> Option<B>, y: B)
    requires y in Kept(xs, fix)
    ensures exists k :: 0 <= k < |xs| && fix(xs[k], k) == Some(y)
  {
    var n := |xs| - 1;
    if y in Kept(xs[..n], fix) {
      KeptOnlyKept(xs[..n], fix, y);
      var k :| 0 <= k < n && fix(xs[..n][k], k) == Some(y);
      assert xs[..n][k] == xs[k];
    } else {
      assert fix(xs[n], n) == Some(y);
    }
  }

  lemma {:induction false} KeptAll<A, B>(xs: seq<A>, fix: (A, nat) -> Option<B>, ok: B -> bool)
    requires forall x, i :: fix(x, i).Some? ==> ok(fix(x, i).value)
    ensures forall k :: 0 <= k < |Kept(xs, fix)| ==> ok(Kept(xs, fix)[k])
  {
    if xs != [] {
      var n := |xs| - 1;
      var f := fix(xs[n], n);
      var pre := Kept(xs[..n], fix);
      var r := Kept(xs, fix);
      KeptAll(xs[..n], fix, ok);
      assert r == pre + (if f.Some? then [f.value] else []);
      forall k | 0 <= k < |r|
        ensures ok(r[k])
      {
        if k < |pre| {
          assert r[k] == pre[k];
        } else {
          assert r[k] == f.value;
        }
      }
    }
  }

  /** The kept entries of a question list, repaired, in their original order. */
  function Validated(entries: seq<Json>): (r: seq<Question>)
    ensures |r| <= |entries|
  {
    Kept(entries, FixQuestion)
  }

  /** What validation guarantees of a question it keeps: a non-empty title,
      and title, type and refer without surrounding whitespace. */
  predicate WellFormed(q: Question) {
    q.title != [] && NoSpaceAtEnds(q.title) && NoSpaceAtEnds(q.kind) && NoSpaceAtEnds(q.refer)
  }

  lemma FixedWellFormed(entry: Json, index: nat)
    ensures FixQuestion(entry, index).Some? ==> WellFormed(FixQuestion(entry, index).value)
  {
  }

  /** Every question validation keeps is well formed. */
  lemma ValidatedWellFormed(entries: seq<Json>)
    ensures forall k :: 0 <= k < |Validated(entries)| ==> WellFormed(Validated(entries)[k])
  {
    forall x, i | FixQuestion(x, i).Some?
      ensures WellFormed(FixQuestion(x, i).value)
    {
      FixedWellFormed(x, i);
    }
    KeptAll(entries, FixQuestion, WellFormed);
  }

  /** Every entry that survives validation shows up in the result ... */
  lemma ValidatedKeeps(entries: seq<Json>, k: nat, q: Question)
    requires k < |entries| && FixQuestion(entries[k], k) == Some(q)
    ensures q in Validated(entries)
  {
    KeptKeeps(entries, FixQuestion, k, q);
  }

  /** ... and nothing else does. */
  lemma ValidatedOnlyKept(entries: seq<Json>, q: Question)
    requires q in Validated(entries)
    ensures exists k :: 0 <= k < |entries| && FixQuestion(entries[k], k) == Some(q)
  {
    KeptOnlyKept(entries, FixQuestion, q);
  }

  /** An entry whose title is not a string is never dropped: str() of it
      ("None", "5", "[]" ...) is not empty. */
  lemma NonStringTitleKept(entry: Json, index: nat)
    requires entry.Obj? && HasKey(entry.members, "title")
    requires !Get(entry.members, "title", Null).Str?
    ensures FixQuestion(entry, index).Some?
    ensures FixQuestion(entry, index).value.title == PyStr(Get(entry.members, "title", Null))
  {
    var v := Get(entry.members, "title", Null);
    PyStrOfNonString(v);
    StripFixed(PyStr(v));
  }

  /** The validation loop of analyze_pdf_with_ai. */
  method ValidateQuestions(entries: seq<Json>) returns (valid: seq<Question>)
    ensures valid == Validated(entries)
  {
    valid := [];
    for i := 0 to |entries|
      invariant valid == Kept(entries[..i], FixQuestion)
    {
      var fixed := FixQuestion(entries[i], i);
      KeptPrefixStep(entries, FixQuestion, i);
      if fixed.Some? {
        valid := valid + [fixed.value];
      }
    }
    assert entries[..|entries|] == entries;
  }

  /** The questions an attempt yields from the service's (unstripped) text,
      or None when it is a decode failure. */
  function ExtractQuestions(response: string, parse: string -> Option<Json>): (r: Option<seq<Question>>)
    ensures r.None? <==> Decode(Strip(response), parse).None?
  {
    match Decode(Strip(response), parse)
    case None => None
    case Some(v) => Some(Validated(QuestionEntries(v)))
  }

  /** A payload in a ```json fence is recovered exactly as if the fenced
      interior had been parsed alone, whatever narrative surrounds it. */
  lemma FencedPayloadWins(text: string, parse: string -> Option<Json>, v: Json)
    requires FencedCandidate(text).Some?
    requires parse(FencedCandidate(text).value) == Some(v) && v != Null
    ensures Decode(text, parse) == Some(v)
  {
    assert Candidates(text)[0] == FencedCandidate(text).value;
  }

  /** Without a usable fence, the brace span is tried before the whole text. */
  lemma BracePayloadWins(text: string, parse: string -> Option<Json>, v: Json)
    requires FencedCandidate(text).None? || parse(FencedCandidate(text).value).None?
    requires BraceCandidate(text).Some?
    requires parse(BraceCandidate(text).value) == Some(v) && v != Null
    ensures Decode(text, parse) == Some(v)
  {
    var cands := Candidates(text);
    var fenced := FencedCandidate(text);
    if fenced.Some? {
      assert cands[0] == fenced.value && cands[1] == BraceCandidate(text).value;
      assert FirstParsingFrom(cands, parse, 1) == Some(1);
      assert FirstParsing(cands, parse) == Some(1);
    } else {
      assert cands[0] == BraceCandidate(text).value;
      assert FirstParsing(cands, parse) == Some(0);
    }
  }

  /** When no candidate parses, the attempt is a decode failure. */
  lemma NothingParses(text: string, parse: string -> Option<Json>)
    requires forall k :: 0 <= k < |Candidates(text)| ==> parse(Candidates(text)[k]).None?
    ensures Decode(text, parse).None?
  {
  }

  /** A response whose first parsing candidate is `null` is a decode failure,
      even when a later candidate would parse: the candidate loop has already
      stopped. */
  lemma NullStopsTheSearch(text: string, parse: string -> Option<Json>)
    requires FencedCandidate(text).Some? && parse(FencedCandidate(text).value) == Some(Null)
    ensures Decode(text, parse).None?
  {
    assert Candidates(text)[0] == FencedCandidate(text).value;
  }

  /** A decoded value that is not a dict with a `questions` list yields no
      questions (and is not a decode failure). */
  lemma MalformedPayloadIsEmpty(response: string, parse: string -> Option<Json>)
    requires Decode(Strip(response), parse).Some?
    requires var v := Decode(Strip(response), parse).value;
             !v.Obj? || !HasKey(v.members, "questions") || !Get(v.members, "questions", Null).Arr?
    ensures ExtractQuestions(response, parse) == Some([])
  {
  }
}
