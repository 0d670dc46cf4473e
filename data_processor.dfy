// The data processor's per-question normalisation: clean_text,
// normalize_question_type, extract_knowledge_points, the records that
// process_questions_to_dataframe builds, the knowledge-point coverage count
// of generate_summary_statistics and the name of the full CSV export.
module DataProcessor {
  import opened PyText
  import opened JsonValue

  // ---------------------------------------------------------------------
  // clean_text
  // ---------------------------------------------------------------------

  /** The elements of xs that keep accepts, in order. On a string this is
      what re.sub with a negated character class and an empty replacement
      leaves. */
  function Filter<T>(xs: seq<T>, keep: T -> bool): (r: seq<T>)
    ensures |r| <= |xs|
    ensures forall i :: 0 <= i < |r| ==> keep(r[i])
  {
    if xs == [] then [] else (if keep(xs[0]) then [xs[0]] else []) + Filter(xs[1..], keep)
  }

  lemma {:induction false} FilterAppend<T>(a: seq<T>, b: seq<T>, keep: T -> bool)
    ensures Filter(a + b, keep) == Filter(a, keep) + Filter(b, keep)
  {
    if a != [] {
      assert (a + b)[0] == a[0] && (a + b)[1..] == a[1..] + b;
      FilterAppend(a[1..], b, keep);
      var head := if keep(a[0]) then [a[0]] else [];
      assert Filter(a + b, keep) == head + (Filter(a[1..], keep) + Filter(b, keep));
      assert Filter(a, keep) == head + Filter(a[1..], keep);
    } else {
      assert a + b == b;
    }
  }

  lemma FilterPrefixStep<T>(xs: seq<T>, keep: T -> bool, i: nat)
    requires i < |xs|
    ensures Filter(xs[..i + 1], keep) == Filter(xs[..i], keep) + (if keep(xs[i]) then [xs[i]] else [])
  {
    assert xs[..i + 1] == xs[..i] + [xs[i]];
    FilterAppend(xs[..i], [xs[i]], keep);
  }

  /** An element survives exactly when it is in xs and accepted. */
  lemma {:induction false} FilterMembers<T>(xs: seq<T>, keep: T -> bool)
    ensures forall x :: x in Filter(xs, keep) <==> x in xs && keep(x)
  {
    if xs != [] {
      FilterMembers(xs[1..], keep);
      var head := if keep(xs[0]) then [xs[0]] else [];
      assert Filter(xs, keep) == head + Filter(xs[1..], keep);
      forall x ensures x in Filter(xs, keep) <==> x in xs && keep(x) {
        assert x in xs <==> x == xs[0] || x in xs[1..];
      }
    }
  }

  /** a can be obtained from b by deleting elements. */
  predicate IsSubsequence<T(==)>(a: seq<T>, b: seq<T>)
    decreases |b|
  {
    a == [] || (b != [] && if a[0] == b[0] then IsSubsequence(a[1..], b[1..]) else IsSubsequence(a, b[1..]))
  }

  /** Filtering yields a subsequence of the input. */
  lemma {:induction false} FilterIsSubsequence<T>(xs: seq<T>, keep: T -> bool)
    ensures IsSubsequence(Filter(xs, keep), xs)
  {
    if xs != [] {
      FilterIsSubsequence(xs[1..], keep);
      if !keep(xs[0]) {
        assert Filter(xs, keep) == Filter(xs[1..], keep);
        SubsequenceOfTail(Filter(xs, keep), xs);
      }
    }
  }

  lemma {:induction false} SubsequenceOfTail<T>(a: seq<T>, b: seq<T>)
    requires b != [] && IsSubsequence(a, b[1..])
    ensures IsSubsequence(a, b)
    decreases |b|, |a|
  {
    if a != [] && a[0] == b[0] {
      SubsequenceDropHead(a, b[1..]);
    }
  }

  lemma {:induction false} SubsequenceDropHead<T>(a: seq<T>, b: seq<T>)
    requires a != [] && IsSubsequence(a, b)
    ensures IsSubsequence(a[1..], b)
    decreases |b|, |a|
  {
    if a[0] != b[0] {
      SubsequenceDropHead(a, b[1..]);
      SubsequenceOfTail(a[1..], b);
    } else if a[1..] != [] {
      SubsequenceOfTail(a[1..], b);
    }
  }

  /** Only rejected characters go: every accepted one survives, as often
      as it occurred. */
  lemma {:induction false} FilterKeepsAccepted(s: string, keep: char -> bool, c: char)
    requires keep(c)
    ensures CountChar(Filter(s, keep), c) == CountChar(s, c)
  {
    if s != [] {
      FilterKeepsAccepted(s[1..], keep, c);
      CountCharAppend((if keep(s[0]) then [s[0]] else []), Filter(s[1..], keep), c);
    }
  }

  lemma {:induction false} CountCharAppend(a: string, b: string, c: char)
    ensures CountChar(a + b, c) == CountChar(a, c) + CountChar(b, c)
  {
    if a != [] {
      assert (a + b)[0] == a[0] && (a + b)[1..] == a[1..] + b;
      CountCharAppend(a[1..], b, c);
    } else {
      assert a + b == b;
    }
  }

  /** A string whose every character is accepted comes through whole. */
  lemma {:induction false} FilterAllAccepted<T>(xs: seq<T>, keep: T -> bool)
    requires forall i :: 0 <= i < |xs| ==> keep(xs[i])
    ensures Filter(xs, keep) == xs
  {
    if xs != [] {
      FilterAllAccepted(xs[1..], keep);
    }
  }

  predicate NotSpace(c: char) {
    !IsSpace(c)
  }

  /** Whitespace in s is single ' ' characters only. */
  predicate Collapsed(s: string) {
    && (forall i :: 0 <= i < |s| && IsSpace(s[i]) ==> s[i] == ' ')
    && (forall i :: 0 <= i < |s| - 1 ==> !(s[i] == ' ' && s[i + 1] == ' '))
  }

  /** re.sub(r'\s+', ' ', s): every maximal whitespace run becomes one space. */
  function CollapseSpaces(s: string): (r: string)
    ensures |r| <= |s| && (r == [] <==> s == [])
    ensures s != [] && !IsSpace(s[0]) ==> r[0] == s[0]
    ensures s != [] && !IsSpace(s[|s| - 1]) ==> r[|r| - 1] == s[|s| - 1]
    ensures Collapsed(r)
    decreases |s|
  {
    if s == [] then []
    else if IsSpace(s[0]) then [' '] + CollapseSpaces(TrimLeft(s))
    else [s[0]] + CollapseSpaces(s[1..])
  }

  /** Collapsing touches whitespace only: the other characters are those of
      the input, in order. */
  lemma {:induction false} CollapseKeepsText(s: string)
    ensures Filter(CollapseSpaces(s), NotSpace) == Filter(s, NotSpace)
    decreases |s|
  {
    if s != [] {
      if IsSpace(s[0]) {
        var t := TrimLeft(s);
        CollapseKeepsText(t);
        TrimLeftFiltersSpaces(s);
      } else {
        CollapseKeepsText(s[1..]);
      }
    }
  }

  lemma {:induction false} TrimLeftFiltersSpaces(s: string)
    ensures Filter(TrimLeft(s), NotSpace) == Filter(s, NotSpace)
  {
    if s != [] && IsSpace(s[0]) {
      TrimLeftFiltersSpaces(s[1..]);
    }
  }

  /** A string without whitespace is left as it is. */
  lemma {:induction false} CollapseNoSpace(s: string)
    requires forall i :: 0 <= i < |s| ==> !IsSpace(s[i])
    ensures CollapseSpaces(s) == s
  {
    if s != [] {
      CollapseNoSpace(s[1..]);
    }
  }

  /** Characters of the CJK Unified Ideographs block, U+4E00 to U+9FFF. */
  predicate IsCjk(c: char) {
    '\U{4E00}' <= c <= '\U{9FFF}'
  }

  /** The punctuation the class of src/data_processor.py:47 spells out. The
      pattern is two adjacent literals, r'...{}""' and '""]+', so the two
      apostrophes between them close and reopen the literal and the
      apostrophe is not in the class. */
  const Punctuation: string := ".,;:!?()[]{}\""

  /** The characters that the second substitution keeps, as written; `word`
      is Python's Unicode \w. */
  predicate KeptAsWritten(word: char -> bool, c: char) {
    word(c) || IsSpace(c) || IsCjk(c) || c in Punctuation
  }

  /** The same class with the apostrophe the pattern was evidently meant to
      list among its quotation marks. */
  predicate KeptIntended(word: char -> bool, c: char) {
    KeptAsWritten(word, c) || c == '\''
  }

  /** clean_text with the kept-character class as a parameter: anything but
      a string is converted with str(); a string is stripped, its whitespace
      runs collapsed, and the characters outside the class deleted. */
  function CleanTextWith(text: Json, keep: char -> bool): string {
    if !text.Str? then PyStr(text) else Filter(CollapseSpaces(Strip(text.s)), keep)
  }

  /** clean_text exactly as written; the records below use it. */
  function CleanTextAsWritten(text: Json, word: char -> bool): string {
    CleanTextWith(text, c => KeptAsWritten(word, c))
  }

  /** clean_text with the apostrophe kept: the evidently intended class,
      the corrected half of the apostrophe finding. */
  function CleanText(text: Json, word: char -> bool): string {
    CleanTextWith(text, c => KeptIntended(word, c))
  }

  /** What each step of clean_text guarantees: the first leaves no
      whitespace at either end, no whitespace but ' ' and no two spaces in a
      row, and keeps every other character in order; the second only
      deletes characters, keeping each accepted one. */
  lemma CleanTextSteps(text: Json, keep: char -> bool)
    ensures !text.Str? ==> CleanTextWith(text, keep) == PyStr(text)
    ensures text.Str? ==>
      var first := CollapseSpaces(Strip(text.s));
      && NoSpaceAtEnds(first) && Collapsed(first)
      && Filter(first, NotSpace) == Filter(Strip(text.s), NotSpace)
      && IsSubsequence(CleanTextWith(text, keep), first)
      && (forall c :: keep(c) ==> CountChar(CleanTextWith(text, keep), c) == CountChar(first, c))
  {
    if text.Str? {
      var first := CollapseSpaces(Strip(text.s));
      CollapseKeepsText(Strip(text.s));
      FilterIsSubsequence(first, keep);
      forall c | keep(c) ensures CountChar(Filter(first, keep), c) == CountChar(first, c) {
        FilterKeepsAccepted(first, keep, c);
      }
    }
  }

  /** A word: no whitespace, every character matched by \w. */
  predicate IsWord(s: string, word: char -> bool) {
    forall i :: 0 <= i < |s| ==> word(s[i]) && !IsSpace(s[i])
  }

  /** Two words joined by an apostrophe hold no whitespace, so the first
      step of clean_text leaves them as they are. */
  lemma FirstStepKeepsJoinedWords(a: string, b: string, word: char -> bool)
    requires IsWord(a, word) && IsWord(b, word)
    ensures CollapseSpaces(Strip(a + "'" + b)) == a + "'" + b
  {
    var s := a + "'" + b;
    forall i | 0 <= i < |s| ensures !IsSpace(s[i]) {
      if i < |a| { assert s[i] == a[i]; }
      else if i > |a| { assert s[i] == b[i - |a| - 1]; }
    }
    StripFixed(s);
    CollapseNoSpace(s);
  }

  lemma FilterDropsJoint(a: string, c: char, b: string, keep: char -> bool)
    requires forall i :: 0 <= i < |a| ==> keep(a[i])
    requires forall i :: 0 <= i < |b| ==> keep(b[i])
    requires !keep(c)
    ensures Filter(a + [c] + b, keep) == a + b
  {
    FilterAppend(a + [c], b, keep);
    FilterAppend(a, [c], keep);
    FilterAllAccepted(a, keep);
    FilterAllAccepted(b, keep);
    assert Filter([c], keep) == [] by {
      assert [c][1..] == [];
    }
    assert a + [] == a;
  }

  lemma ApostropheOutsideClass(word: char -> bool)
    requires !word('\'')
    ensures !KeptAsWritten(word, '\'')
  {
    assert '\'' !in Punctuation;
  }

  /** As written, clean_text deletes the apostrophe between two words:
      "don't" becomes "dont". */
  lemma AsWrittenDropsApostrophe(a: string, b: string, word: char -> bool)
    requires IsWord(a, word) && IsWord(b, word) && !word('\'')
    ensures CleanTextAsWritten(Str(a + "'" + b), word) == a + b
  {
    FirstStepKeepsJoinedWords(a, b, word);
    ApostropheOutsideClass(word);
    FilterDropsJoint(a, '\'', b, c => KeptAsWritten(word, c));
  }

  /** With the apostrophe in the class, a word with apostrophes and no
      whitespace comes through clean_text unchanged. */
  lemma ApostropheKept(s: string, word: char -> bool)
    requires forall i :: 0 <= i < |s| ==> word(s[i]) || s[i] == '\''
    requires forall i :: 0 <= i < |s| ==> !IsSpace(s[i])
    ensures CleanText(Str(s), word) == s
  {
    StripFixed(s);
    CollapseNoSpace(s);
    FilterAllAccepted(s, c => KeptIntended(word, c));
  }

  // ---------------------------------------------------------------------
  // normalize_question_type
  // ---------------------------------------------------------------------

  // The mapping table of src/data_processor.py:58-113 in its written order,
  // one constant per canonical name; each name's keys are contiguous there,
  // so scanning the groups in order and each group's keys in order visits
  // the keys in the table's order.
  const MultipleChoiceKeys: seq<string> := ["multiple choice", "choice", "single choice", "mcq", "选择", "选择题"]
  const FillInBlankKeys: seq<string> := ["fill in blank", "fill", "fill in", "fill-in", "blank", "填空", "填空题"]
  const ShortAnswerKeys: seq<string> := ["short answer", "brief answer", "简答", "简答题"]
  const EssayKeys: seq<string> := ["essay", "discussion", "long answer", "论述", "论述题", "论证"]
  const CalculationKeys: seq<string> := ["calculation", "compute", "计算", "计算题"]
  const ProgrammingKeys: seq<string> := ["programming", "coding", "code", "编程", "编程题", "代码"]
  const TrueFalseKeys: seq<string> := ["true/false", "true false", "boolean", "判断", "判断题", "对错"]

  /** The key groups, in table order; group g maps to CanonicalTypes[g]. */
  const TypeGroups: seq<seq<string>> := [MultipleChoiceKeys, FillInBlankKeys, ShortAnswerKeys,
    EssayKeys, CalculationKeys, ProgrammingKeys, TrueFalseKeys]

  const CanonicalTypes: seq<string> := ["Multiple Choice", "Fill in Blank", "Short Answer", "Essay",
    "Calculation", "Programming", "True/False"]

  /** Some key of the group is a substring of t. */
  predicate MentionsSome(t: string, keys: seq<string>) {
    exists k :: 0 <= k < |keys| && Contains(t, keys[k])
  }

  /** The first group, from g on, one of whose keys t contains. */
  function FirstGroupFrom(t: string, g: nat): (r: Option<nat>)
    requires g <= |TypeGroups|
    ensures r.Some? ==> g <= r.value < |TypeGroups| && MentionsSome(t, TypeGroups[r.value])
    ensures r.Some? ==> forall h :: g <= h < r.value ==> !MentionsSome(t, TypeGroups[h])
    ensures r.None? ==> forall h :: g <= h < |TypeGroups| ==> !MentionsSome(t, TypeGroups[h])
    decreases |TypeGroups| - g
  {
    if g == |TypeGroups| then None
    else if MentionsSome(t, TypeGroups[g]) then Some(g)
    else FirstGroupFrom(t, g + 1)
  }

  /** question_type.lower().strip() */
  function TypeKey(s: string): string {
    Strip(Lower(s))
  }

  /** The name of the first group with a key in t, "Other" when none has. */
  function NameOfKey(t: string): (r: string)
    ensures r in CanonicalTypes || r == "Other"
  {
    match FirstGroupFrom(t, 0)
    case Some(g) => CanonicalTypes[g]
    case None => "Other"
  }

  /** normalize_question_type: "Unknown" for anything but a string, else the
      name whose key occurs first in table order in the lower-cased,
      stripped text, else "Other". */
  function NormalizeQuestionType(v: Json): (r: string)
    ensures !v.Str? ==> r == "Unknown"
    ensures v.Str? ==> r in CanonicalTypes || r == "Other"
  {
    if !v.Str? then "Unknown" else NameOfKey(TypeKey(v.s))
  }

  /** The first matching key decides: the name for a type key t is a group's
      name exactly when that group has a key in t and no earlier group does,
      and "Other" exactly when no group has one. */
  lemma NormalizeFirstMatch(t: string, g: nat)
    requires g < |TypeGroups|
    ensures NameOfKey(t) == CanonicalTypes[g] <==>
      MentionsSome(t, TypeGroups[g]) && forall h :: 0 <= h < g ==> !MentionsSome(t, TypeGroups[h])
    ensures NameOfKey(t) == "Other" <==> forall h :: 0 <= h < |TypeGroups| ==> !MentionsSome(t, TypeGroups[h])
  {
    FirstGroupIff(t, g);
    NamesDistinct();
  }

  /** Group g is the first whose key occurs exactly when it has a key in t
      and no earlier group does. */
  lemma FirstGroupIff(t: string, g: nat)
    requires g < |TypeGroups|
    ensures FirstGroupFrom(t, 0) == Some(g) <==>
      MentionsSome(t, TypeGroups[g]) && forall h :: 0 <= h < g ==> !MentionsSome(t, TypeGroups[h])
  {
    if MentionsSome(t, TypeGroups[g]) && forall h :: 0 <= h < g ==> !MentionsSome(t, TypeGroups[h]) {
      FirstGroupIs(t, g);
    }
  }

  lemma NamesDistinct()
    ensures |CanonicalTypes| == |TypeGroups|
    ensures forall g, h :: 0 <= g < h < |CanonicalTypes| ==> CanonicalTypes[g] != CanonicalTypes[h]
    ensures "Other" !in CanonicalTypes
  {
  }

  lemma FirstGroupIs(t: string, g: nat)
    requires g < |TypeGroups| && MentionsSome(t, TypeGroups[g])
    requires forall h :: 0 <= h < g ==> !MentionsSome(t, TypeGroups[h])
    ensures FirstGroupFrom(t, 0) == Some(g)
  {
  }

  /** The name a group decides is that group's canonical name. */
  lemma NormalizeIs(t: string, g: nat)
    requires g < |TypeGroups| && FirstGroupFrom(t, 0) == Some(g)
    ensures NameOfKey(t) == CanonicalTypes[g]
  {
  }

  // -- the canonical names normalise to themselves ------------------------
  //
  // CanonicalStable, OtherStable and UnknownStable below rest on facts
  // about the literal key lists: which key of which group a lowered name
  // mentions first. A literal is cheap to reason about one at a time, so
  // these facts come per name, and the misses per run of keys. None of
  // them models an operation of its own.

  lemma MentionsItself(t: string, keys: seq<string>, k: nat)
    requires k < |keys| && keys[k] == t
    ensures MentionsSome(t, keys)
  {
    ContainsIff(t, t, 0);
  }

  /** A key holding a character t lacks is not a substring of t. */
  lemma AbsentChar(t: string, key: string, c: char)
    requires c in key && c !in t
    ensures !Contains(t, key)
  {
    var i :| 0 <= i < |key| && key[i] == c;
    forall k: nat | k + |key| <= |t|
      ensures !OccursAt(t, key, k)
    {
      assert t[k..k + |key|][i] == t[k + i];
    }
  }

  // A group has no key in t when t lacks, for each of its keys, one of that
  // key's characters: x or y for the Latin keys, the first ideograph for the
  // Chinese ones.

  lemma NoMultipleChoiceKey(t: string, x: char, y: char)
    requires (x in "multiple choice" || y in "multiple choice") && (x in "choice" || y in "choice") && (x in "single choice" || y in "single choice") && (x in "mcq" || y in "mcq")
    requires x !in t && y !in t && '选' !in t
    ensures !MentionsSome(t, MultipleChoiceKeys)
  {
    forall k | 0 <= k < |MultipleChoiceKeys| ensures !Contains(t, MultipleChoiceKeys[k]) {
      var c := if k < 4 then (if x in MultipleChoiceKeys[k] then x else y) else '选';
      AbsentChar(t, MultipleChoiceKeys[k], c);
    }
  }

  lemma NoFillInBlankKey(t: string, x: char, y: char)
    requires (x in "fill in blank" || y in "fill in blank") && (x in "fill" || y in "fill") && (x in "fill in" || y in "fill in") && (x in "fill-in" || y in "fill-in") && (x in "blank" || y in "blank")
    requires x !in t && y !in t && '填' !in t
    ensures !MentionsSome(t, FillInBlankKeys)
  {
    forall k | 0 <= k < |FillInBlankKeys| ensures !Contains(t, FillInBlankKeys[k]) {
      var c := if k < 5 then (if x in FillInBlankKeys[k] then x else y) else '填';
      AbsentChar(t, FillInBlankKeys[k], c);
    }
  }

  lemma NoShortAnswerKey(t: string, x: char, y: char)
    requires (x in "short answer" || y in "short answer") && (x in "brief answer" || y in "brief answer")
    requires x !in t && y !in t && '简' !in t
    ensures !MentionsSome(t, ShortAnswerKeys)
  {
    forall k | 0 <= k < |ShortAnswerKeys| ensures !Contains(t, ShortAnswerKeys[k]) {
      var c := if k < 2 then (if x in ShortAnswerKeys[k] then x else y) else '简';
      AbsentChar(t, ShortAnswerKeys[k], c);
    }
  }

  lemma NoEssayKey(t: string, x: char, y: char)
    requires (x in "essay" || y in "essay") && (x in "discussion" || y in "discussion") && (x in "long answer" || y in "long answer")
    requires x !in t && y !in t && '论' !in t
    ensures !MentionsSome(t, EssayKeys)
  {
    forall k | 0 <= k < |EssayKeys| ensures !Contains(t, EssayKeys[k]) {
      var c := if k < 3 then (if x in EssayKeys[k] then x else y) else '论';
      AbsentChar(t, EssayKeys[k], c);
    }
  }

  lemma NoCalculationKey(t: string, x: char, y: char)
    requires (x in "calculation" || y in "calculation") && (x in "compute" || y in "compute")
    requires x !in t && y !in t && '计' !in t
    ensures !MentionsSome(t, CalculationKeys)
  {
    forall k | 0 <= k < |CalculationKeys| ensures !Contains(t, CalculationKeys[k]) {
      var c := if k < 2 then (if x in CalculationKeys[k] then x else y) else '计';
      AbsentChar(t, CalculationKeys[k], c);
    }
  }

  lemma NoProgrammingKey(t: string, x: char, y: char)
    requires (x in "programming" || y in "programming") && (x in "coding" || y in "coding") && (x in "code" || y in "code")
    requires x !in t && y !in t && '编' !in t && '代' !in t
    ensures !MentionsSome(t, ProgrammingKeys)
  {
    forall k | 0 <= k < |ProgrammingKeys| ensures !Contains(t, ProgrammingKeys[k]) {
      var c := if k < 3 then (if x in ProgrammingKeys[k] then x else y) else if k < 5 then '编' else '代';
      AbsentChar(t, ProgrammingKeys[k], c);
    }
  }

  lemma NoTrueFalseKey(t: string, x: char, y: char)
    requires (x in "true/false" || y in "true/false") && (x in "true false" || y in "true false") && (x in "boolean" || y in "boolean")
    requires x !in t && y !in t && '判' !in t && '对' !in t
    ensures !MentionsSome(t, TrueFalseKeys)
  {
    forall k | 0 <= k < |TrueFalseKeys| ensures !Contains(t, TrueFalseKeys[k]) {
      var c := if k < 3 then (if x in TrueFalseKeys[k] then x else y) else if k < 5 then '判' else '对';
      AbsentChar(t, TrueFalseKeys[k], c);
    }
  }

  // Normalising a canonical name again gives it back, and "Other" and
  // "Unknown" both give "Other". The lower-cased name is its group's first
  // key (for True/False, the key "true/false"), and it holds no key of an
  // earlier group; "other" and "unknown" hold no key at all. Each step is a
  // lemma of its own.

  lemma MultipleChoiceKeyGroup(t: string)
    requires t == "multiple choice"
    ensures FirstGroupFrom(t, 0) == Some(0)
  {
    MentionsItself(t, TypeGroups[0], 0);
    FirstGroupIs(t, 0);
  }

  lemma MultipleChoiceLowered(s: string)
    requires s == "Multiple Choice"
    ensures Lower(s) == "multiple choice"
  {
  }

  lemma MultipleChoiceKey(s: string)
    requires s == "Multiple Choice"
    ensures TypeKey(s) == "multiple choice"
  {
    MultipleChoiceLowered(s);
    StripFixed(Lower(s));
  }

  lemma MultipleChoiceNamed(s: string)
    requires s == CanonicalTypes[0]
    ensures s == "Multiple Choice"
  {
  }

  lemma MultipleChoiceGroup(s: string)
    requires s == CanonicalTypes[0]
    ensures FirstGroupFrom(TypeKey(s), 0) == Some(0)
  {
    MultipleChoiceNamed(s);
    MultipleChoiceKey(s);
    MultipleChoiceKeyGroup(TypeKey(s));
  }

  lemma FillInBlankMisses0To1(t: string)
    requires t == "fill in blank"
    ensures forall h :: 0 <= h < 1 ==> !MentionsSome(t, TypeGroups[h])
  {
    NoMultipleChoiceKey(t, 'c', 'c');
  }

  lemma FillInBlankKeyGroup(t: string)
    requires t == "fill in blank"
    ensures FirstGroupFrom(t, 0) == Some(1)
  {
    FillInBlankMisses0To1(t);
    MentionsItself(t, TypeGroups[1], 0);
    FirstGroupIs(t, 1);
  }

  lemma FillInBlankLowered(s: string)
    requires s == "Fill in Blank"
    ensures Lower(s) == "fill in blank"
  {
  }

  lemma FillInBlankKey(s: string)
    requires s == "Fill in Blank"
    ensures TypeKey(s) == "fill in blank"
  {
    FillInBlankLowered(s);
    StripFixed(Lower(s));
  }

  lemma FillInBlankNamed(s: string)
    requires s == CanonicalTypes[1]
    ensures s == "Fill in Blank"
  {
  }

  lemma FillInBlankGroup(s: string)
    requires s == CanonicalTypes[1]
    ensures FirstGroupFrom(TypeKey(s), 0) == Some(1)
  {
    FillInBlankNamed(s);
    FillInBlankKey(s);
    FillInBlankKeyGroup(TypeKey(s));
  }

  lemma ShortAnswerMisses0To1(t: string)
    requires t == "short answer"
    ensures forall h :: 0 <= h < 1 ==> !MentionsSome(t, TypeGroups[h])
  {
    NoMultipleChoiceKey(t, 'c', 'c');
  }

  lemma ShortAnswerMisses1To2(t: string)
    requires t == "short answer"
    ensures forall h :: 1 <= h < 2 ==> !MentionsSome(t, TypeGroups[h])
  {
    NoFillInBlankKey(t, 'l', 'l');
  }

  lemma ShortAnswerKeyGroup(t: string)
    requires t == "short answer"
    ensures FirstGroupFrom(t, 0) == Some(2)
  {
    ShortAnswerMisses0To1(t);
    ShortAnswerMisses1To2(t);
    MentionsItself(t, TypeGroups[2], 0);
    FirstGroupIs(t, 2);
  }

  lemma ShortAnswerLowered(s: string)
    requires s == "Short Answer"
    ensures Lower(s) == "short answer"
  {
  }

  lemma ShortAnswerKey(s: string)
    requires s == "Short Answer"
    ensures TypeKey(s) == "short answer"
  {
    ShortAnswerLowered(s);
    StripFixed(Lower(s));
  }

  lemma ShortAnswerNamed(s: string)
    requires s == CanonicalTypes[2]
    ensures s == "Short Answer"
  {
  }

  lemma ShortAnswerGroup(s: string)
    requires s == CanonicalTypes[2]
    ensures FirstGroupFrom(TypeKey(s), 0) == Some(2)
  {
    ShortAnswerNamed(s);
    ShortAnswerKey(s);
    ShortAnswerKeyGroup(TypeKey(s));
  }

  lemma EssayMisses0To1(t: string)
    requires t == "essay"
    ensures forall h :: 0 <= h < 1 ==> !MentionsSome(t, TypeGroups[h])
  {
    NoMultipleChoiceKey(t, 'c', 'c');
  }

  lemma EssayMisses1To2(t: string)
    requires t == "essay"
    ensures forall h :: 1 <= h < 2 ==> !MentionsSome(t, TypeGroups[h])
  {
    NoFillInBlankKey(t, 'l', 'l');
  }

  lemma EssayMisses2To3(t: string)
    requires t == "essay"
    ensures forall h :: 2 <= h < 3 ==> !MentionsSome(t, TypeGroups[h])
  {
    NoShortAnswerKey(t, 'r', 'r');
  }

  lemma EssayKeyGroup(t: string)
    requires t == "essay"
    ensures FirstGroupFrom(t, 0) == Some(3)
  {
    EssayMisses0To1(t);
    EssayMisses1To2(t);
    EssayMisses2To3(t);
    MentionsItself(t, TypeGroups[3], 0);
    FirstGroupIs(t, 3);
  }

  lemma EssayLowered(s: string)
    requires s == "Essay"
    ensures Lower(s) == "essay"
  {
  }

  lemma EssayKey(s: string)
    requires s == "Essay"
    ensures TypeKey(s) == "essay"
  {
    EssayLowered(s);
    StripFixed(Lower(s));
  }

  lemma EssayNamed(s: string)
    requires s == CanonicalTypes[3]
    ensures s == "Essay"
  {
  }

  lemma EssayGroup(s: string)
    requires s == CanonicalTypes[3]
    ensures FirstGroupFrom(TypeKey(s), 0) == Some(3)
  {
    EssayNamed(s);
    EssayKey(s);
    EssayKeyGroup(TypeKey(s));
  }

  lemma CalculationMisses0To1(t: string)
    requires t == "calculation"
    ensures forall h :: 0 <= h < 1 ==> !MentionsSome(t, TypeGroups[h])
  {
    NoMultipleChoiceKey(t, 'h', 'm');
  }

  lemma CalculationMisses1To2(t: string)
    requires t == "calculation"
    ensures forall h :: 1 <= h < 2 ==> !MentionsSome(t, TypeGroups[h])
  {
    NoFillInBlankKey(t, 'f', 'b');
  }

  lemma CalculationMisses2To3(t: string)
    requires t == "calculation"
    ensures forall h :: 2 <= h < 3 ==> !MentionsSome(t, TypeGroups[h])
  {
    NoShortAnswerKey(t, 'r', 'r');
  }

  lemma CalculationMisses3To4(t: string)
    requires t == "calculation"
    ensures forall h :: 3 <= h < 4 ==> !MentionsSome(t, TypeGroups[h])
  {
    NoEssayKey(t, 's', 's');
  }

  lemma CalculationKeyGroup(t: string)
    requires t == "calculation"
    ensures FirstGroupFrom(t, 0) == Some(4)
  {
    CalculationMisses0To1(t);
    CalculationMisses1To2(t);
    CalculationMisses2To3(t);
    CalculationMisses3To4(t);
    MentionsItself(t, TypeGroups[4], 0);
    FirstGroupIs(t, 4);
  }

  lemma CalculationLowered(s: string)
    requires s == "Calculation"
    ensures Lower(s) == "calculation"
  {
  }

  lemma CalculationKey(s: string)
    requires s == "Calculation"
    ensures TypeKey(s) == "calculation"
  {
    CalculationLowered(s);
    StripFixed(Lower(s));
  }

  lemma CalculationNamed(s: string)
    requires s == CanonicalTypes[4]
    ensures s == "Calculation"
  {
  }

  lemma CalculationGroup(s: string)
    requires s == CanonicalTypes[4]
    ensures FirstGroupFrom(TypeKey(s), 0) == Some(4)
  {
    CalculationNamed(s);
    CalculationKey(s);
    CalculationKeyGroup(TypeKey(s));
  }

  lemma ProgrammingMisses0To1(t: string)
    requires t == "programming"
    ensures forall h :: 0 <= h < 1 ==> !MentionsSome(t, TypeGroups[h])
  {
    NoMultipleChoiceKey(t, 'c', 'c');
  }

  lemma ProgrammingMisses1To2(t: string)
    requires t == "programming"
    ensures forall h :: 1 <= h < 2 ==> !MentionsSome(t, TypeGroups[h])
  {
    NoFillInBlankKey(t, 'l', 'l');
  }

  lemma ProgrammingMisses2To3(t: string)
    requires t == "programming"
    ensures forall h :: 2 <= h < 3 ==> !MentionsSome(t, TypeGroups[h])
  {
    NoShortAnswerKey(t, 's', 's');
  }

  lemma ProgrammingMisses3To4(t: string)
    requires t == "programming"
    ensures forall h :: 3 <= h < 4 ==> !MentionsSome(t, TypeGroups[h])
  {
    NoEssayKey(t, 's', 's');
  }

  lemma ProgrammingMisses4To5(t: string)
    requires t == "programming"
    ensures forall h :: 4 <= h < 5 ==> !MentionsSome(t, TypeGroups[h])
  {
    NoCalculationKey(t, 'c', 'c');
  }

  lemma ProgrammingKeyGroup(t: string)
    requires t == "programming"
    ensures FirstGroupFrom(t, 0) == Some(5)
  {
    ProgrammingMisses0To1(t);
    ProgrammingMisses1To2(t);
    ProgrammingMisses2To3(t);
    ProgrammingMisses3To4(t);
    ProgrammingMisses4To5(t);
    MentionsItself(t, TypeGroups[5], 0);
    FirstGroupIs(t, 5);
  }

  lemma ProgrammingLowered(s: string)
    requires s == "Programming"
    ensures Lower(s) == "programming"
  {
  }

  lemma ProgrammingKey(s: string)
    requires s == "Programming"
    ensures TypeKey(s) == "programming"
  {
    ProgrammingLowered(s);
    StripFixed(Lower(s));
  }

  lemma ProgrammingNamed(s: string)
    requires s == CanonicalTypes[5]
    ensures s == "Programming"
  {
  }

  lemma ProgrammingGroup(s: string)
    requires s == CanonicalTypes[5]
    ensures FirstGroupFrom(TypeKey(s), 0) == Some(5)
  {
    ProgrammingNamed(s);
    ProgrammingKey(s);
    ProgrammingKeyGroup(TypeKey(s));
  }

  lemma TrueFalseMisses0To1(t: string)
    requires t == "true/false"
    ensures forall h :: 0 <= h < 1 ==> !MentionsSome(t, TypeGroups[h])
  {
    NoMultipleChoiceKey(t, 'c', 'c');
  }

  lemma TrueFalseMisses1To2(t: string)
    requires t == "true/false"
    ensures forall h :: 1 <= h < 2 ==> !MentionsSome(t, TypeGroups[h])
  {
    NoFillInBlankKey(t, 'i', 'k');
  }

  lemma TrueFalseMisses2To3(t: string)
    requires t == "true/false"
    ensures forall h :: 2 <= h < 3 ==> !MentionsSome(t, TypeGroups[h])
  {
    NoShortAnswerKey(t, 'w', 'w');
  }

  lemma TrueFalseMisses3To4(t: string)
    requires t == "true/false"
    ensures forall h :: 3 <= h < 4 ==> !MentionsSome(t, TypeGroups[h])
  {
    NoEssayKey(t, 'y', 'o');
  }

  lemma TrueFalseMisses4To5(t: string)
    requires t == "true/false"
    ensures forall h :: 4 <= h < 5 ==> !MentionsSome(t, TypeGroups[h])
  {
    NoCalculationKey(t, 'c', 'c');
  }

  lemma TrueFalseMisses5To6(t: string)
    requires t == "true/false"
    ensures forall h :: 5 <= h < 6 ==> !MentionsSome(t, TypeGroups[h])
  {
    NoProgrammingKey(t, 'o', 'o');
  }

  lemma TrueFalseKeyGroup(t: string)
    requires t == "true/false"
    ensures FirstGroupFrom(t, 0) == Some(6)
  {
    TrueFalseMisses0To1(t);
    TrueFalseMisses1To2(t);
    TrueFalseMisses2To3(t);
    TrueFalseMisses3To4(t);
    TrueFalseMisses4To5(t);
    TrueFalseMisses5To6(t);
    MentionsItself(t, TypeGroups[6], 0);
    FirstGroupIs(t, 6);
  }

  lemma TrueFalseLowered(s: string)
    requires s == "True/False"
    ensures Lower(s) == "true/false"
  {
  }

  lemma TrueFalseKey(s: string)
    requires s == "True/False"
    ensures TypeKey(s) == "true/false"
  {
    TrueFalseLowered(s);
    StripFixed(Lower(s));
  }

  lemma TrueFalseNamed(s: string)
    requires s == CanonicalTypes[6]
    ensures s == "True/False"
  {
  }

  lemma TrueFalseGroup(s: string)
    requires s == CanonicalTypes[6]
    ensures FirstGroupFrom(TypeKey(s), 0) == Some(6)
  {
    TrueFalseNamed(s);
    TrueFalseKey(s);
    TrueFalseKeyGroup(TypeKey(s));
  }

  lemma OtherMisses0To1(t: string)
    requires t == "other"
    ensures forall h :: 0 <= h < 1 ==> !MentionsSome(t, TypeGroups[h])
  {
    NoMultipleChoiceKey(t, 'c', 'c');
  }

  lemma OtherMisses1To2(t: string)
    requires t == "other"
    ensures forall h :: 1 <= h < 2 ==> !MentionsSome(t, TypeGroups[h])
  {
    NoFillInBlankKey(t, 'l', 'l');
  }

  lemma OtherMisses2To3(t: string)
    requires t == "other"
    ensures forall h :: 2 <= h < 3 ==> !MentionsSome(t, TypeGroups[h])
  {
    NoShortAnswerKey(t, 'a', 'a');
  }

  lemma OtherMisses3To4(t: string)
    requires t == "other"
    ensures forall h :: 3 <= h < 4 ==> !MentionsSome(t, TypeGroups[h])
  {
    NoEssayKey(t, 's', 's');
  }

  lemma OtherMisses4To5(t: string)
    requires t == "other"
    ensures forall h :: 4 <= h < 5 ==> !MentionsSome(t, TypeGroups[h])
  {
    NoCalculationKey(t, 'c', 'c');
  }

  lemma OtherMisses5To6(t: string)
    requires t == "other"
    ensures forall h :: 5 <= h < 6 ==> !MentionsSome(t, TypeGroups[h])
  {
    NoProgrammingKey(t, 'g', 'd');
  }

  lemma OtherMisses6To7(t: string)
    requires t == "other"
    ensures forall h :: 6 <= h < 7 ==> !MentionsSome(t, TypeGroups[h])
  {
    NoTrueFalseKey(t, 'u', 'b');
  }

  lemma OtherKeyNone(t: string)
    requires t == "other"
    ensures FirstGroupFrom(t, 0).None?
  {
    OtherMisses0To1(t);
    OtherMisses1To2(t);
    OtherMisses2To3(t);
    OtherMisses3To4(t);
    OtherMisses4To5(t);
    OtherMisses5To6(t);
    OtherMisses6To7(t);
  }

  lemma OtherLowered(s: string)
    requires s == "Other"
    ensures Lower(s) == "other"
  {
  }

  lemma OtherKey(s: string)
    requires s == "Other"
    ensures TypeKey(s) == "other"
  {
    OtherLowered(s);
    StripFixed(Lower(s));
  }

  lemma OtherStable(s: string)
    requires s == "Other"
    ensures NormalizeQuestionType(Str(s)) == "Other"
  {
    OtherKey(s);
    OtherKeyNone(TypeKey(s));
  }

  lemma UnknownMisses0To1(t: string)
    requires t == "unknown"
    ensures forall h :: 0 <= h < 1 ==> !MentionsSome(t, TypeGroups[h])
  {
    NoMultipleChoiceKey(t, 'c', 'c');
  }

  lemma UnknownMisses1To2(t: string)
    requires t == "unknown"
    ensures forall h :: 1 <= h < 2 ==> !MentionsSome(t, TypeGroups[h])
  {
    NoFillInBlankKey(t, 'l', 'l');
  }

  lemma UnknownMisses2To3(t: string)
    requires t == "unknown"
    ensures forall h :: 2 <= h < 3 ==> !MentionsSome(t, TypeGroups[h])
  {
    NoShortAnswerKey(t, 'a', 'a');
  }

  lemma UnknownMisses3To4(t: string)
    requires t == "unknown"
    ensures forall h :: 3 <= h < 4 ==> !MentionsSome(t, TypeGroups[h])
  {
    NoEssayKey(t, 's', 's');
  }

  lemma UnknownMisses4To5(t: string)
    requires t == "unknown"
    ensures forall h :: 4 <= h < 5 ==> !MentionsSome(t, TypeGroups[h])
  {
    NoCalculationKey(t, 'c', 'c');
  }

  lemma UnknownMisses5To6(t: string)
    requires t == "unknown"
    ensures forall h :: 5 <= h < 6 ==> !MentionsSome(t, TypeGroups[h])
  {
    NoProgrammingKey(t, 'g', 'd');
  }

  lemma UnknownMisses6To7(t: string)
    requires t == "unknown"
    ensures forall h :: 6 <= h < 7 ==> !MentionsSome(t, TypeGroups[h])
  {
    NoTrueFalseKey(t, 'e', 'e');
  }

  lemma UnknownKeyNone(t: string)
    requires t == "unknown"
    ensures FirstGroupFrom(t, 0).None?
  {
    UnknownMisses0To1(t);
    UnknownMisses1To2(t);
    UnknownMisses2To3(t);
    UnknownMisses3To4(t);
    UnknownMisses4To5(t);
    UnknownMisses5To6(t);
    UnknownMisses6To7(t);
  }

  lemma UnknownLowered(s: string)
    requires s == "Unknown"
    ensures Lower(s) == "unknown"
  {
  }

  lemma UnknownKey(s: string)
    requires s == "Unknown"
    ensures TypeKey(s) == "unknown"
  {
    UnknownLowered(s);
    StripFixed(Lower(s));
  }

  lemma UnknownStable(s: string)
    requires s == "Unknown"
    ensures NormalizeQuestionType(Str(s)) == "Other"
  {
    UnknownKey(s);
    UnknownKeyNone(TypeKey(s));
  }

  /** Each canonical name normalises to itself. */
  lemma CanonicalStable(g: nat)
    requires g < |CanonicalTypes|
    ensures NormalizeQuestionType(Str(CanonicalTypes[g])) == CanonicalTypes[g]
  {
    var s := CanonicalTypes[g];
    if g == 0 { MultipleChoiceGroup(s); }
    else if g == 1 { FillInBlankGroup(s); }
    else if g == 2 { ShortAnswerGroup(s); }
    else if g == 3 { EssayGroup(s); }
    else if g == 4 { CalculationGroup(s); }
    else if g == 5 { ProgrammingGroup(s); }
    else { TrueFalseGroup(s); }
    NormalizeIs(TypeKey(s), g);
  }

  // ---------------------------------------------------------------------
  // extract_knowledge_points
  // ---------------------------------------------------------------------

  /** The distributed-systems keywords looked for in a title, in order. */
  const Keywords: seq<string> := [
    "RMI", "Remote Method Invocation", "DHT", "Distributed Hash Table", "P2P", "Peer-to-Peer",
    "NFS", "Network File System", "DNS", "Domain Name System", "Clock", "Synchronization",
    "Consistency", "Replication", "Fault Tolerance", "Availability", "Load Balancing", "Scalability",
    "Marshalling", "Serialization", "TCP", "UDP", "HTTP", "Client-Server", "Architecture"]

  /** The refer value that stands for "not provided". */
  const NotProvided: string := "未提供"

  predicate NoDuplicates(xs: seq<string>) {
    forall i, j :: 0 <= i < j < |xs| ==> xs[i] != xs[j]
  }

  /** A point taken from the refer field: a string other than NotProvided. */
  predicate FromRefer(refer: Json, x: string) {
    refer.Str? && refer.s != NotProvided && x == refer.s
  }

  /** A point taken from the title: one of the keywords whose lower-case
      form occurs in the lower-cased title. */
  predicate FromTitle(title: Json, keywords: seq<string>, x: string) {
    title.Str? && x in keywords && Mentions(Lower(title.s), x)
  }

  /** `keyword.lower() in title_lower` */
  predicate Mentions(loweredTitle: string, keyword: string) {
    Contains(loweredTitle, Lower(keyword))
  }

  /** list(set(xs)): each element once; the order is the first occurrences'. */
  function Distinct(xs: seq<string>): (r: seq<string>)
    ensures NoDuplicates(r)
    ensures forall x :: x in r <==> x in xs
    ensures |r| <= |xs|
  {
    if xs == [] then []
    else
      var rest := Distinct(xs[..|xs| - 1]);
      var x := xs[|xs| - 1];
      assert xs == xs[..|xs| - 1] + [x];
      if x in rest then rest else rest + [x]
  }

  /** The loop of extract_knowledge_points: the keywords that pass the
      title test, in list order. */
  method ScanKeywords(keywords: seq<string>, mentioned: string -> bool) returns (found: seq<string>)
    ensures found == Filter(keywords, mentioned)
  {
    found := [];
    for i := 0 to |keywords|
      invariant found == Filter(keywords[..i], mentioned)
    {
      FilterPrefixStep(keywords, mentioned, i);
      if mentioned(keywords[i]) {
        found := found + [keywords[i]];
      }
    }
    assert keywords[..|keywords|] == keywords;
  }

  /** extract_knowledge_points over a given keyword list. */
  method CollectKnowledgePoints(refer: Json, title: Json, keywords: seq<string>) returns (points: seq<string>)
    ensures NoDuplicates(points)
    ensures forall x :: x in points <==> FromRefer(refer, x) || FromTitle(title, keywords, x)
  {
    var found: seq<string> := [];
    if refer.Str? && refer.s != NotProvided {
      found := [refer.s];
    }
    var hits: seq<string> := [];
    if title.Str? {
      var lowered := Lower(title.s);
      var mentioned := (keyword: string) => Mentions(lowered, keyword);
      hits := ScanKeywords(keywords, mentioned);
      FilterMembers(keywords, mentioned);
    }
    points := Distinct(found + hits);
  }

  /** extract_knowledge_points: the refer value and every keyword found in
      the title, each once. */
  method ExtractKnowledgePoints(refer: Json, title: Json) returns (points: seq<string>)
    ensures NoDuplicates(points)
    ensures forall x :: x in points <==> FromRefer(refer, x) || FromTitle(title, Keywords, x)
  {
    points := CollectKnowledgePoints(refer, title, Keywords);
  }

  // ---------------------------------------------------------------------
  // process_questions_to_dataframe and generate_summary_statistics
  // ---------------------------------------------------------------------

  /** One record of the data frame. */
  datatype Row = Row(
    id: Json, title: string, kind: string, originalType: Json, refer: Json,
    knowledgePoints: seq<Json>, source: Json, titleLength: nat)

  /** The knowledge_points of a record: the question's list, [] when the
      key is missing, and ['Uncategorized'] for a value that is not a list. */
  function PointsCell(q: seq<(string, Json)>): (r: seq<Json>)
    ensures !HasKey(q, "knowledge_points") ==> r == []
    ensures HasKey(q, "knowledge_points") && !Get(q, "knowledge_points", Null).Arr? ==> r == [Str("Uncategorized")]
    ensures Get(q, "knowledge_points", Null).Arr? ==> r == Get(q, "knowledge_points", Null).items
  {
    var kp := Get(q, "knowledge_points", Arr([]));
    if kp.Arr? then kp.items else [Str("Uncategorized")]
  }

  /** The record built from one question dict: missing fields take their
      defaults, the title is cleaned and the type normalised. */
  function MakeRow(q: seq<(string, Json)>, word: char -> bool): (r: Row)
    ensures r.kind == NormalizeQuestionType(r.originalType)
    ensures r.originalType == Get(q, "type", Str("Unknown"))
    ensures r.title == CleanTextAsWritten(Get(q, "title", Str("")), word) && r.titleLength == |r.title|
    ensures r.knowledgePoints == PointsCell(q)
  {
    var title := CleanTextAsWritten(Get(q, "title", Str("")), word);
    var originalType := Get(q, "type", Str("Unknown"));
    Row(Get(q, "id", Str("")), title, NormalizeQuestionType(originalType), originalType,
        Get(q, "refer", Str("Uncategorized")), PointsCell(q),
        Get(q, "source", Str("Unknown")), |title|)
  }

  /** A question without a type reads as "Unknown" and is counted as "Other". */
  lemma MissingTypeIsOther(q: seq<(string, Json)>, word: char -> bool)
    requires !HasKey(q, "type")
    ensures MakeRow(q, word).kind == "Other"
  {
    UnknownStable("Unknown");
  }

  /** A record keeps the program's title: a title of two words joined by
      an apostrophe loses the apostrophe, and title_length counts what is
      left. */
  lemma RowTitleDropsApostrophe(q: seq<(string, Json)>, a: string, b: string, word: char -> bool)
    requires Get(q, "title", Str("")) == Str(a + "'" + b)
    requires IsWord(a, word) && IsWord(b, word) && !word('\'')
    ensures MakeRow(q, word).title == a + b
    ensures MakeRow(q, word).titleLength == |a| + |b|
  {
    AsWrittenDropsApostrophe(a, b, word);
  }

  /** f applied to each element of xs, in order. */
  function MapSeq<A, B>(xs: seq<A>, f: A -> B): (r: seq<B>)
    ensures |r| == |xs| && forall k :: 0 <= k < |xs| ==> r[k] == f(xs[k])
  {
    if xs == [] then [] else MapSeq(xs[..|xs| - 1], f) + [f(xs[|xs| - 1])]
  }

  lemma MapSeqPrefixStep<A, B>(xs: seq<A>, f: A -> B, i: nat)
    requires i < |xs|
    ensures MapSeq(xs[..i + 1], f) == MapSeq(xs[..i], f) + [f(xs[i])]
  {
    assert xs[..i + 1][..i] == xs[..i];
  }

  /** The loop `for x in xs: out.append(f(x))`, over any element types. */
  method MapEach<A, B>(xs: seq<A>, f: A -> B) returns (ys: seq<B>)
    ensures ys == MapSeq(xs, f)
  {
    ys := [];
    for i := 0 to |xs|
      invariant ys == MapSeq(xs[..i], f)
    {
      MapSeqPrefixStep(xs, f, i);
      ys := ys + [f(xs[i])];
    }
    assert xs[..|xs|] == xs;
  }

  /** process_questions_to_dataframe: one record per question, in order. */
  method ProcessQuestions(questions: seq<seq<(string, Json)>>, word: char -> bool) returns (rows: seq<Row>)
    ensures |rows| == |questions|
    ensures forall k :: 0 <= k < |rows| ==> rows[k] == MakeRow(questions[k], word)
  {
    rows := MapEach(questions, (q: seq<(string, Json)>) => MakeRow(q, word));
  }

  /** A record whose knowledge points count as coverage: a non-empty list
      other than exactly ['Uncategorized']. */
  predicate CoversKnowledge(r: Row) {
    r.knowledgePoints != [] && r.knowledgePoints != [Str("Uncategorized")]
  }

  /** valid_kp_count of generate_summary_statistics. */
  function ValidKpCount(rows: seq<Row>): (n: nat)
    ensures n <= |rows|
  {
    if rows == [] then 0
    else ValidKpCount(rows[..|rows| - 1]) + (if CoversKnowledge(rows[|rows| - 1]) then 1 else 0)
  }

  /** The count reaches the number of records exactly when every record
      covers knowledge, and is zero exactly when none does. */
  lemma {:induction false} ValidKpCountBounds(rows: seq<Row>)
    ensures ValidKpCount(rows) == |rows| <==> forall k :: 0 <= k < |rows| ==> CoversKnowledge(rows[k])
    ensures ValidKpCount(rows) == 0 <==> forall k :: 0 <= k < |rows| ==> !CoversKnowledge(rows[k])
  {
    if rows != [] {
      var init := rows[..|rows| - 1];
      ValidKpCountBounds(init);
      assert forall k :: 0 <= k < |init| ==> init[k] == rows[k];
    }
  }

  /** A question without a knowledge_points list never counts. */
  lemma DefaultPointsNeverCount(q: seq<(string, Json)>, word: char -> bool)
    requires !Get(q, "knowledge_points", Null).Arr?
    ensures !CoversKnowledge(MakeRow(q, word))
  {
  }

  // ---------------------------------------------------------------------
  // export_to_csv
  // ---------------------------------------------------------------------

  /** output_path.replace('.csv', '_full.csv'): every occurrence is replaced. */
  function FullCsvPath(path: string): string {
    ReplaceAll(path, ".csv", "_full.csv")
  }

  /** A path that mentions ".csv" only as its extension gets "_full" before it. */
  lemma FullCsvPathOfStem(stem: string)
    requires forall k :: 0 <= k < |stem| ==> !OccursAt(stem + ".csv", ".csv", k)
    ensures FullCsvPath(stem + ".csv") == stem + "_full.csv"
  {
    ReplaceSuffix(stem, ".csv", "_full.csv");
  }

  /** A path without ".csv" is used as it is, so the full export overwrites
      the core one. */
  lemma FullCsvPathWithoutExtension(path: string)
    requires forall k :: 0 <= k < |path| ==> !OccursAt(path, ".csv", k)
    ensures FullCsvPath(path) == path
  {
    ReplaceAbsent(path, ".csv", "_full.csv");
  }
}
