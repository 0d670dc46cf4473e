// The counting and string helpers behind the charts: text normalisation for
// matching, the per-chapter and per-type tallies with their ordering and the
// dashboard figures, the timeline's chapter test and marker size, the
// knowledge-point collection and coverage buckets, and the chapter label
// used when a reference names no chapter number.
module Visualizer {
  import opened PyText
  import opened JsonValue
  import DataProcessor

  // --------------------------------------------------------- _normalize_text

  /** Characters other than `c`. */
  function Other(c: char): char -> bool {
    (x: char) => x != c
  }

  /** Replacing a one-character pattern by nothing deletes that character. */
  lemma {:induction false} RemovalIsFilter(s: string, c: char)
    ensures ReplaceAll(s, [c], "") == DataProcessor.Filter(s, Other(c))
    decreases |s|
  {
    if |s| >= 1 {
      RemovalIsFilter(s[1..], c);
      if s[..1] == [c] {
        assert s[0] == c;
      } else {
        assert s[0] != c;
      }
    }
  }

  /** _normalize_text: lower-case, strip, then delete every space and every
      hyphen. */
  function NormalizeText(text: string): (r: string)
    ensures ' ' !in r && '-' !in r
    ensures |r| <= |text|
  {
    var s := Strip(Lower(text));
    RemovalsDelete(s);
    ReplaceAll(ReplaceAll(s, " ", ""), "-", "")
  }

  lemma RemovalsDelete(s: string)
    ensures var r := ReplaceAll(ReplaceAll(s, " ", ""), "-", "");
            ' ' !in r && '-' !in r && |r| <= |s|
  {
    var t := ReplaceAll(s, " ", "");
    RemovalIsFilter(s, ' ');
    RemovalIsFilter(t, '-');
    DataProcessor.FilterMembers(s, Other(' '));
    DataProcessor.FilterMembers(t, Other('-'));
  }

  /** The normalised text is the stripped lower-case text with its spaces
      and hyphens taken out, every other character kept in order. */
  lemma NormalizeDeletesOnly(text: string)
    ensures NormalizeText(text) ==
            DataProcessor.Filter(DataProcessor.Filter(Strip(Lower(text)), Other(' ')), Other('-'))
    ensures DataProcessor.IsSubsequence(NormalizeText(text), Strip(Lower(text)))
  {
    var s := Strip(Lower(text));
    RemovalIsFilter(s, ' ');
    RemovalIsFilter(ReplaceAll(s, " ", ""), '-');
    var t := DataProcessor.Filter(s, Other(' '));
    DataProcessor.FilterIsSubsequence(s, Other(' '));
    DataProcessor.FilterIsSubsequence(t, Other('-'));
    SubsequenceTrans(DataProcessor.Filter(t, Other('-')), t, s);
  }

  lemma {:induction false} SubsequenceTrans<T>(a: seq<T>, b: seq<T>, c: seq<T>)
    requires DataProcessor.IsSubsequence(a, b) && DataProcessor.IsSubsequence(b, c)
    ensures DataProcessor.IsSubsequence(a, c)
    decreases |c|
  {
    if a != [] {
      if b[0] == c[0] {
        if a[0] == b[0] {
          SubsequenceTrans(a[1..], b[1..], c[1..]);
        } else {
          SubsequenceTrans(a, b[1..], c[1..]);
          DataProcessor.SubsequenceOfTail(a, c);
        }
      } else {
        SubsequenceTrans(a, b, c[1..]);
        DataProcessor.SubsequenceOfTail(a, c);
      }
    }
  }

  // ----------------------------------------------------------------- tallies

  /** A defaultdict(int) or Counter in insertion order: each key once, with
      its count. */
  type Tally<K> = seq<(K, nat)>

  /** Where `k` is counted, or -1. */
  function IndexOf<K(==)>(tally: Tally<K>, k: K): (r: int)
    ensures -1 <= r < |tally|
    ensures r >= 0 ==> tally[r].0 == k
    ensures r < 0 ==> forall i :: 0 <= i < |tally| ==> tally[i].0 != k
  {
    if tally == [] then -1
    else if tally[|tally| - 1].0 == k then |tally| - 1
    else IndexOf(tally[..|tally| - 1], k)
  }

  /** counts[k] += 1: a new key goes last with count 1. */
  function Bump<K(==)>(tally: Tally<K>, k: K): Tally<K> {
    var j := IndexOf(tally, k);
    if j < 0 then tally + [(k, 1)] else tally[j := (k, tally[j].1 + 1)]
  }

  /** The tally of keys counted one after another. */
  function TallyOf<K(==)>(keys: seq<K>): Tally<K> {
    if keys == [] then [] else Bump(TallyOf(keys[..|keys| - 1]), keys[|keys| - 1])
  }

  predicate DistinctKeys<K(==)>(tally: Tally<K>) {
    forall i, j :: 0 <= i < j < |tally| ==> tally[i].0 != tally[j].0
  }

  predicate Counted<K(==)>(tally: Tally<K>, k: K) {
    exists i :: 0 <= i < |tally| && tally[i].0 == k
  }

  /** The sum of the counts. */
  function Total<K>(tally: Tally<K>): nat {
    if tally == [] then 0 else Total(tally[..|tally| - 1]) + tally[|tally| - 1].1
  }

  lemma {:induction false} TotalAppend<K>(tally: Tally<K>, e: (K, nat))
    ensures Total(tally + [e]) == Total(tally) + e.1
  {
    assert (tally + [e])[..|tally|] == tally;
  }

  lemma {:induction false} TotalIncrement<K>(tally: Tally<K>, j: nat, e: (K, nat))
    requires j < |tally| && e.1 == tally[j].1 + 1
    ensures Total(tally[j := e]) == Total(tally) + 1
  {
    var n := |tally| - 1;
    if j < n {
      TotalIncrement(tally[..n], j, e);
      assert tally[j := e][..n] == tally[..n][j := e];
    } else {
      assert tally[j := e][..n] == tally[..n];
    }
  }

  /** Every key is counted once, a key is counted exactly when it occurs,
      and its count is the number of its occurrences. */
  lemma {:induction false} TallyCounts<K>(keys: seq<K>)
    ensures DistinctKeys(TallyOf(keys))
    ensures forall k :: Counted(TallyOf(keys), k) <==> k in keys
    ensures forall i :: 0 <= i < |TallyOf(keys)| ==> TallyOf(keys)[i].1 == multiset(keys)[TallyOf(keys)[i].0]
  {
    if keys != [] {
      var n := |keys| - 1;
      var prev, x := keys[..n], keys[n];
      TallyCounts(prev);
      assert keys == prev + [x];
      var t := TallyOf(prev);
      var j := IndexOf(t, x);
      assert multiset(keys) == multiset(prev) + multiset{x};
      if j < 0 {
        assert !Counted(t, x);
        assert multiset(prev)[x] == 0;
      }
      var u := TallyOf(keys);
      forall k ensures Counted(u, k) <==> k in keys {
        if Counted(u, k) {
          var i :| 0 <= i < |u| && u[i].0 == k;
          if i < |t| && u[i] == t[i] { assert Counted(t, k); }
        }
        if k in prev {
          var i :| 0 <= i < |t| && t[i].0 == k;
          assert u[i].0 == k;
        }
        if k == x {
          assert u[if j < 0 then |t| else j].0 == k;
        }
      }
    }
  }

  /** The counts add up to the number of keys. */
  lemma {:induction false} TallyTotal<K>(keys: seq<K>)
    ensures Total(TallyOf(keys)) == |keys|
  {
    if keys != [] {
      var n := |keys| - 1;
      TallyTotal(keys[..n]);
      var t := TallyOf(keys[..n]);
      var j := IndexOf(t, keys[n]);
      if j < 0 {
        TotalAppend(t, (keys[n], 1));
      } else {
        TotalIncrement(t, j, (keys[n], t[j].1 + 1));
      }
    }
  }

  /** The keys of a tally, in its order. */
  function KeysOf<K>(tally: Tally<K>): (r: seq<K>)
    ensures |r| == |tally| && forall i :: 0 <= i < |tally| ==> r[i] == tally[i].0
  {
    if tally == [] then [] else KeysOf(tally[..|tally| - 1]) + [tally[|tally| - 1].0]
  }

  /** A sequence without repeats has as many distinct elements as entries. */
  lemma {:induction false} DistinctCardinality<K>(s: seq<K>)
    requires forall i, j :: 0 <= i < j < |s| ==> s[i] != s[j]
    ensures |set x | x in s| == |s|
  {
    if s != [] {
      var n := |s| - 1;
      DistinctCardinality(s[..n]);
      assert (set x | x in s) == (set x | x in s[..n]) + {s[n]};
      assert s[n] !in s[..n];
    }
  }

  /** The tally has one entry per distinct key. */
  lemma TallySizeIsDistinctCount<K>(keys: seq<K>)
    ensures |TallyOf(keys)| == |set k | k in keys|
  {
    var t := TallyOf(keys);
    TallyCounts(keys);
    var ks := KeysOf(t);
    DistinctCardinality(ks);
    assert (set k | k in ks) == (set k | k in keys) by {
      forall k ensures k in ks <==> k in keys {
        if k in keys {
          var i :| 0 <= i < |t| && t[i].0 == k;
          assert ks[i] == k;
        }
        if k in ks {
          var i :| 0 <= i < |ks| && ks[i] == k;
          assert Counted(t, k);
        }
      }
    }
  }

  // ------------------------------------------------------- chapter parts

  /** The trimmed comma-separated parts of one refer value. */
  function Parts(refer: string): (r: seq<string>)
    ensures |r| == CountChar(refer, ',') + 1
    ensures forall k :: 0 <= k < |r| ==> r[k] == Strip(Split(refer, ',')[k])
    ensures forall k :: 0 <= k < |r| ==> NoSpaceAtEnds(r[k]) && ',' !in r[k]
  {
    var pieces := Split(refer, ',');
    var r := DataProcessor.MapSeq(pieces, (p: string) => Strip(p));
    assert forall k :: 0 <= k < |r| ==> r[k] == Strip(pieces[k]) && |r[k]| <= |pieces[k]|;
    assert forall k :: 0 <= k < |r| ==> ',' !in r[k] by {
      forall k | 0 <= k < |r| ensures ',' !in r[k] {
        StripInside(pieces[k]);
        assert ',' !in pieces[k];
      }
    }
    r
  }

  /** strip() only removes characters. */
  lemma StripInside(s: string)
    ensures forall k :: 0 <= k < |Strip(s)| ==> Strip(s)[k] in s
  {
    var l := TrimLeft(s);
    var i := |s| - |l|;
    assert l == s[i..];
    var r := TrimRight(l);
    assert r == l[..|r|];
    forall k | 0 <= k < |r| ensures r[k] in s {
      assert r[k] == s[i + k];
    }
  }

  /** The parts of every refer value, question after question. */
  function AllParts(refers: seq<string>): seq<string> {
    if refers == [] then [] else AllParts(refers[..|refers| - 1]) + Parts(refers[|refers| - 1])
  }

  /** Each question contributes one part more than its refer has commas. */
  function PartCount(refers: seq<string>): nat {
    if refers == [] then 0 else PartCount(refers[..|refers| - 1]) + CountChar(refers[|refers| - 1], ',') + 1
  }

  lemma {:induction false} AllPartsLength(refers: seq<string>)
    ensures |AllParts(refers)| == PartCount(refers)
  {
    if refers != [] {
      AllPartsLength(refers[..|refers| - 1]);
    }
  }

  lemma TallyOfAppend<K>(keys: seq<K>, k: K)
    ensures TallyOf(keys + [k]) == Bump(TallyOf(keys), k)
  {
    assert (keys + [k])[..|keys|] == keys;
  }

  lemma TallyStep<K>(before: seq<K>, keys: seq<K>, j: nat)
    requires j < |keys|
    ensures TallyOf(before + keys[..j + 1]) == Bump(TallyOf(before + keys[..j]), keys[j])
  {
    assert before + keys[..j + 1] == (before + keys[..j]) + [keys[j]];
    TallyOfAppend(before + keys[..j], keys[j]);
  }

  /** The inner loop: count each part in turn. */
  method CountParts(tally: Tally<string>, parts: seq<string>, ghost before: seq<string>) returns (counted: Tally<string>)
    requires tally == TallyOf(before)
    ensures counted == TallyOf(before + parts)
  {
    counted := tally;
    assert before + parts[..0] == before;
    for j := 0 to |parts|
      invariant counted == TallyOf(before + parts[..j])
    {
      TallyStep(before, parts, j);
      counted := Bump(counted, parts[j]);
    }
    assert parts[..|parts|] == parts;
  }

  lemma AllPartsStep(refers: seq<string>, i: nat)
    requires i < |refers|
    ensures AllParts(refers[..i + 1]) == AllParts(refers[..i]) + Parts(refers[i])
  {
    assert refers[..i + 1][..i] == refers[..i];
  }

  /** The per-chapter tally of the importance chart and the dashboard: each
      refer split on commas, each part trimmed and counted. */
  method ChapterTally(refers: seq<string>) returns (tally: Tally<string>)
    ensures tally == TallyOf(AllParts(refers))
  {
    tally := [];
    for i := 0 to |refers|
      invariant tally == TallyOf(AllParts(refers[..i]))
    {
      AllPartsStep(refers, i);
      tally := CountParts(tally, Parts(refers[i]), AllParts(refers[..i]));
    }
    assert refers[..|refers|] == refers;
  }

  /** What the chapter tally states: its keys are exactly the trimmed parts,
      each once, counted as often as it occurs, and the counts add up to the
      number of parts. */
  lemma ChapterTallyMeaning(refers: seq<string>)
    ensures DistinctKeys(TallyOf(AllParts(refers)))
    ensures forall c :: Counted(TallyOf(AllParts(refers)), c) <==> c in AllParts(refers)
    ensures Total(TallyOf(AllParts(refers))) == PartCount(refers)
  {
    TallyCounts(AllParts(refers));
    TallyTotal(AllParts(refers));
    AllPartsLength(refers);
  }

  // ------------------------------------------------------------- ordering

  predicate NonIncreasing<K>(t: Tally<K>) {
    forall i, j :: 0 <= i < j < |t| ==> t[i].1 >= t[j].1
  }

  /** Where x goes: after every entry with a count at least its own. */
  function InsertPos<K>(x: (K, nat), t: Tally<K>): (p: nat)
    ensures p <= |t|
    ensures forall i :: p <= i < |t| ==> t[i].1 < x.1
    ensures p > 0 ==> t[p - 1].1 >= x.1
  {
    if t == [] || t[|t| - 1].1 >= x.1 then |t| else InsertPos(x, t[..|t| - 1])
  }

  function Insert<K>(x: (K, nat), t: Tally<K>): Tally<K> {
    if t == [] || t[|t| - 1].1 >= x.1 then t + [x] else Insert(x, t[..|t| - 1]) + [t[|t| - 1]]
  }

  lemma {:induction false} InsertAt<K>(x: (K, nat), t: Tally<K>)
    ensures Insert(x, t) == t[..InsertPos(x, t)] + [x] + t[InsertPos(x, t)..]
  {
    if !(t == [] || t[|t| - 1].1 >= x.1) {
      var n := |t| - 1;
      InsertAt(x, t[..n]);
      var p := InsertPos(x, t[..n]);
      assert t[..n][..p] == t[..p];
      assert t[..n][p..] + [t[n]] == t[p..];
    }
  }

  /** sorted(items, key=count, reverse=True): insertion one entry at a time. */
  function SortByCount<K>(s: Tally<K>): Tally<K> {
    if s == [] then [] else Insert(s[|s| - 1], SortByCount(s[..|s| - 1]))
  }

  lemma InsertKeepsOrder<K>(x: (K, nat), t: Tally<K>)
    requires NonIncreasing(t)
    ensures NonIncreasing(Insert(x, t))
  {
    var p := InsertPos(x, t);
    InsertAt(x, t);
    FrontAtLeast(x, t, p);
    OrderAround(t[..p], x, t[p..]);
  }

  lemma FrontAtLeast<K>(x: (K, nat), t: Tally<K>, p: nat)
    requires NonIncreasing(t) && p == InsertPos(x, t)
    ensures forall i :: 0 <= i < p ==> t[..p][i].1 >= x.1
  {
    forall i | 0 <= i < p ensures t[..p][i].1 >= x.1 {
      assert t[i].1 >= t[p - 1].1;
    }
  }

  /** a + [x] + b is ordered when a and b are, x is at most a's counts and
      above b's. */
  lemma OrderAround<K>(a: Tally<K>, x: (K, nat), b: Tally<K>)
    requires NonIncreasing(a + b)
    requires forall i :: 0 <= i < |a| ==> a[i].1 >= x.1
    requires forall i :: 0 <= i < |b| ==> b[i].1 < x.1
    ensures NonIncreasing(a + [x] + b)
  {
    var r := a + [x] + b;
    var ab := a + b;
    forall i, j | 0 <= i < j < |r| ensures r[i].1 >= r[j].1 {
      if j < |a| {
        assert r[i] == ab[i] && r[j] == ab[j];
      } else if j == |a| {
        assert r[i] == a[i];
      } else if i < |a| {
        assert r[i] == ab[i] && r[j] == ab[j - 1];
      } else if i == |a| {
        assert r[j] == b[j - |a| - 1];
      } else {
        assert r[i] == ab[i - 1] && r[j] == ab[j - 1];
      }
    }
  }

  lemma InsertAdds<K>(x: (K, nat), t: Tally<K>)
    ensures multiset(Insert(x, t)) == multiset(t) + multiset{x}
  {
    var p := InsertPos(x, t);
    InsertAt(x, t);
    SplitAt(t, p);
  }

  lemma SplitAt<T>(t: seq<T>, p: nat)
    requires p <= |t|
    ensures t == t[..p] + t[p..]
  {
  }

  lemma {:induction false} SortByCountOrdered<K>(s: Tally<K>)
    ensures NonIncreasing(SortByCount(s))
    ensures multiset(SortByCount(s)) == multiset(s)
  {
    if s != [] {
      var n := |s| - 1;
      SortByCountOrdered(s[..n]);
      InsertKeepsOrder(s[n], SortByCount(s[..n]));
      InsertAdds(s[n], SortByCount(s[..n]));
      assert s == s[..n] + [s[n]];
    }
  }

  /** Entries with count c. */
  function WithCount<K>(c: nat): ((K, nat)) -> bool {
    (e: (K, nat)) => e.1 == c
  }

  lemma {:induction false} FilterNone<T>(xs: seq<T>, keep: T -> bool)
    requires forall i :: 0 <= i < |xs| ==> !keep(xs[i])
    ensures DataProcessor.Filter(xs, keep) == []
  {
    if xs != [] {
      FilterNone(xs[1..], keep);
    }
  }

  /** Inserting an entry adds it last among the entries of its count. */
  lemma InsertStable<K>(x: (K, nat), t: Tally<K>, c: nat)
    ensures DataProcessor.Filter(Insert(x, t), WithCount(c)) ==
            DataProcessor.Filter(t, WithCount(c)) + DataProcessor.Filter([x], WithCount(c))
  {
    var keep := WithCount<K>(c);
    InsertFilter(x, t, keep);
    FilterSplitAt(t, InsertPos(x, t), keep);
    if x.1 == c {
      BackNone(x, t, c);
    } else {
      assert DataProcessor.Filter([x], keep) == [];
    }
  }

  lemma InsertFilter<K>(x: (K, nat), t: Tally<K>, keep: ((K, nat)) -> bool)
    ensures var p := InsertPos(x, t);
            DataProcessor.Filter(Insert(x, t), keep) ==
            DataProcessor.Filter(t[..p], keep) + DataProcessor.Filter([x], keep) + DataProcessor.Filter(t[p..], keep)
  {
    InsertAt(x, t);
    var p := InsertPos(x, t);
    SplitFilter(t[..p], [x], t[p..], keep);
  }

  lemma FilterSplitAt<T>(t: seq<T>, p: nat, keep: T -> bool)
    requires p <= |t|
    ensures DataProcessor.Filter(t, keep) == DataProcessor.Filter(t[..p], keep) + DataProcessor.Filter(t[p..], keep)
  {
    SplitAt(t, p);
    DataProcessor.FilterAppend(t[..p], t[p..], keep);
  }

  /** Every entry after x's place has a smaller count than x. */
  lemma BackNone<K>(x: (K, nat), t: Tally<K>, c: nat)
    requires x.1 == c
    ensures DataProcessor.Filter(t[InsertPos(x, t)..], WithCount(c)) == []
  {
    var p := InsertPos(x, t);
    var back := t[p..];
    forall i | 0 <= i < |back| ensures !WithCount(c)(back[i]) {
      assert back[i] == t[p + i];
    }
    FilterNone(back, WithCount(c));
  }

  lemma SplitFilter<T>(a: seq<T>, b: seq<T>, c: seq<T>, keep: T -> bool)
    ensures DataProcessor.Filter(a + b + c, keep) ==
            DataProcessor.Filter(a, keep) + DataProcessor.Filter(b, keep) + DataProcessor.Filter(c, keep)
  {
    DataProcessor.FilterAppend(a + b, c, keep);
    DataProcessor.FilterAppend(a, b, keep);
  }

  /** The sort is stable: entries with equal counts keep their order. */
  lemma {:induction false} SortByCountStable<K>(s: Tally<K>, c: nat)
    ensures DataProcessor.Filter(SortByCount(s), WithCount(c)) == DataProcessor.Filter(s, WithCount(c))
  {
    if s != [] {
      var n := |s| - 1;
      SortByCountStable(s[..n], c);
      InsertStable(s[n], SortByCount(s[..n]), c);
      assert s == s[..n] + [s[n]];
      DataProcessor.FilterAppend(s[..n], [s[n]], WithCount(c));
    }
  }

  /** max(items, key=count): the first entry with the largest count. */
  function MaxEntry<K>(t: Tally<K>): (r: (K, nat))
    requires t != []
    ensures r in t
    ensures forall i :: 0 <= i < |t| ==> t[i].1 <= r.1
  {
    if |t| == 1 then t[0]
    else
      var b := MaxEntry(t[..|t| - 1]);
      if t[|t| - 1].1 > b.1 then t[|t| - 1] else b
  }

  /** No entry before the one max picks has its count. */
  lemma {:induction false} MaxEntryFirst<K>(t: Tally<K>)
    requires t != []
    ensures exists i :: 0 <= i < |t| && t[i] == MaxEntry(t) && forall j :: 0 <= j < i ==> t[j].1 < MaxEntry(t).1
  {
    if |t| > 1 {
      var n := |t| - 1;
      MaxEntryFirst(t[..n]);
      var b := MaxEntry(t[..n]);
      if t[n].1 > b.1 {
        assert MaxEntry(t) == t[n];
        forall j | 0 <= j < n ensures t[j].1 < t[n].1 {
          assert t[..n][j] == t[j];
        }
      } else {
        assert MaxEntry(t) == b;
        var i :| 0 <= i < n && t[..n][i] == b && forall j :: 0 <= j < i ==> t[..n][j].1 < b.1;
        forall j | 0 <= j < i ensures t[j].1 < b.1 {
          assert t[..n][j] == t[j];
        }
        assert t[i] == b;
      }
    } else {
      assert t[0] == MaxEntry(t);
    }
  }

  lemma {:induction false} FilterHead<T>(xs: seq<T>, keep: T -> bool, i: nat)
    requires i < |xs| && keep(xs[i]) && forall j :: 0 <= j < i ==> !keep(xs[j])
    ensures DataProcessor.Filter(xs, keep) != [] && DataProcessor.Filter(xs, keep)[0] == xs[i]
  {
    if i > 0 {
      FilterHead(xs[1..], keep, i - 1);
    }
  }

  /** The dashboard's top chapter, max over the tally, is the head of the
      importance chart's sorted list. */
  lemma TopIsFirstSorted<K>(t: Tally<K>)
    requires t != []
    ensures SortByCount(t) != [] && SortByCount(t)[0] == MaxEntry(t)
  {
    var m := MaxEntry(t);
    var s := SortByCount(t);
    SortByCountOrdered(t);
    assert m in multiset(s);
    var im :| 0 <= im < |s| && s[im] == m;
    assert s[0] in multiset(t);
    var keep := WithCount<K>(m.1);
    assert s[0].1 == m.1;
    FilterHead(s, keep, 0);
    MaxEntryFirst(t);
    var i :| 0 <= i < |t| && t[i] == m && forall j :: 0 <= j < i ==> t[j].1 < m.1;
    FilterHead(t, keep, i);
    SortByCountStable(t, m.1);
  }

  // -------------------------------------------------------------- dashboard

  /** The two fields of an extended question the tallies read; the type is
      taken to be a string. */
  datatype Question = Question(refer: string, kind: string)

  function Refers(questions: seq<Question>): (r: seq<string>)
    ensures |r| == |questions| && forall k :: 0 <= k < |r| ==> r[k] == questions[k].refer
  {
    DataProcessor.MapSeq(questions, (q: Question) => q.refer)
  }

  function Kinds(questions: seq<Question>): (r: seq<string>)
    ensures |r| == |questions| && forall k :: 0 <= k < |r| ==> r[k] == questions[k].kind
  {
    DataProcessor.MapSeq(questions, (q: Question) => q.kind)
  }

  datatype Dashboard = Dashboard(totalQuestions: nat, questionTypesCount: nat, chaptersCovered: nat, topChapter: string)

  const NoChapter: string := "N/A"

  /** The question, type and chapter figures of _prepare_dashboard_stats. */
  method PrepareDashboardStats(questions: seq<Question>) returns (stats: Dashboard)
    ensures stats.totalQuestions == |questions|
    ensures stats.questionTypesCount == |set t | t in Kinds(questions)|
    ensures stats.chaptersCovered == |TallyOf(AllParts(Refers(questions)))|
    ensures questions == [] <==> stats.chaptersCovered == 0
    ensures questions == [] ==> stats.topChapter == NoChapter
    ensures stats.chaptersCovered > 0 ==> stats.topChapter == MaxEntry(TallyOf(AllParts(Refers(questions)))).0
  {
    var kinds := Kinds(questions);
    var refers := Refers(questions);
    var tally := ChapterTally(refers);
    ChaptersOfQuestions(refers);
    var top := NoChapter;
    if tally != [] {
      top := MaxEntry(tally).0;
    }
    stats := Dashboard(|questions|, |set t | t in kinds|, |tally|, top);
  }

  lemma PartCountPositive(refers: seq<string>)
    requires refers != []
    ensures PartCount(refers) > 0
  {
  }

  lemma BumpNonEmpty<K>(tally: Tally<K>, k: K)
    ensures Bump(tally, k) != []
  {
  }

  /** There are chapters exactly when there are questions: every refer has
      at least one part. */
  lemma ChaptersOfQuestions(refers: seq<string>)
    ensures refers == [] <==> TallyOf(AllParts(refers)) == []
  {
    if refers != [] {
      PartCountPositive(refers);
      AllPartsLength(refers);
      var keys := AllParts(refers);
      BumpNonEmpty(TallyOf(keys[..|keys| - 1]), keys[|keys| - 1]);
    }
  }

  /** chapters_covered is the number of distinct trimmed parts, and
      question_types_count the number of distinct types, at most the number
      of questions and at least one when there are questions. */
  lemma DashboardCounts(questions: seq<Question>)
    ensures |TallyOf(AllParts(Refers(questions)))| == |set c | c in AllParts(Refers(questions))|
    ensures |set t | t in Kinds(questions)| == |TallyOf(Kinds(questions))| <= |questions|
    ensures questions != [] ==> |set t | t in Kinds(questions)| >= 1
  {
    TallySizeIsDistinctCount(AllParts(Refers(questions)));
    TallySizeIsDistinctCount(Kinds(questions));
    TallyTotal(Kinds(questions));
    TallyNoLonger(Kinds(questions));
    if questions != [] {
      assert Kinds(questions)[0] in set t | t in Kinds(questions);
    }
  }

  lemma {:induction false} TallyNoLonger<K>(keys: seq<K>)
    ensures |TallyOf(keys)| <= |keys|
  {
    if keys != [] {
      TallyNoLonger(keys[..|keys| - 1]);
    }
  }

  // ----------------------------------------------------------- the timeline

  /** The marker size for a content item with `count` questions. */
  function MarkerSize(count: int): (r: int)
    ensures 10 <= r <= 30
    ensures 5 <= count <= 15 ==> r == 2 * count
  {
    var twice := count * 2;
    var capped := if twice < 30 then twice else 30;
    if capped > 10 then capped else 10
  }

  /** More questions never give a smaller marker. */
  lemma MarkerSizeMonotone(a: int, b: int)
    requires a <= b
    ensures MarkerSize(a) <= MarkerSize(b)
  {
  }

  /** f"Chapter {n}" */
  function ChapterLabel(n: nat): string {
    "Chapter " + NatToString(n)
  }

  /** The test create_curriculum_timeline applies: the label is a substring
      of refer. */
  predicate InChapterAsWritten(refer: string, n: nat) {
    Contains(refer, ChapterLabel(n))
  }

  /** The label at p is not continued by another digit. */
  predicate EndsNumber(s: string, e: nat) {
    e >= |s| || !IsDigit(s[e])
  }

  /** The intended test: the label occurs as a whole number, not as the
      start of a longer one ("Chapter 1" inside "Chapter 12"). */
  predicate InChapter(refer: string, n: nat) {
    exists p :: 0 <= p <= |refer| && OccursAt(refer, ChapterLabel(n), p) && EndsNumber(refer, p + |ChapterLabel(n)|)
  }

  /** The intended test is the written one restricted to whole numbers. */
  lemma InChapterNarrower(refer: string, n: nat)
    ensures InChapter(refer, n) ==> InChapterAsWritten(refer, n)
  {
    if InChapter(refer, n) {
      var p :| 0 <= p <= |refer| && OccursAt(refer, ChapterLabel(n), p) && EndsNumber(refer, p + |ChapterLabel(n)|);
      ContainsIff(refer, ChapterLabel(n), p);
    }
  }

  /** Appending a digit to a positive number's decimal form multiplies it by
      ten and adds the digit. */
  lemma NatToStringAppend(n: nat, d: nat)
    requires n >= 1 && d < 10
    ensures NatToString(10 * n + d) == NatToString(n) + [DigitChar(d)]
  {
    assert (10 * n + d) / 10 == n && (10 * n + d) % 10 == d;
  }

  const ChapterWord: string := "Chapter "

  /** 'C' occurs in "Chapter " only at its start. */
  lemma ChapterWordHasOneC()
    ensures |ChapterWord| == 8 && ChapterWord[0] == 'C'
    ensures forall k :: 1 <= k < 8 ==> ChapterWord[k] != 'C'
  {
  }

  /** A chapter label is "Chapter " and then digits only. */
  lemma LabelShape(m: nat)
    ensures ChapterLabel(m)[0] == 'C' && |ChapterLabel(m)| > 8
    ensures forall k :: 1 <= k < |ChapterLabel(m)| ==> ChapterLabel(m)[k] != 'C'
    ensures forall k :: 8 <= k < |ChapterLabel(m)| ==> IsDigit(ChapterLabel(m)[k])
  {
    ChapterWordHasOneC();
    var lm := ChapterLabel(m);
    var d := NatToString(m);
    forall k | 8 <= k < |lm| ensures IsDigit(lm[k]) {
      assert lm[k] == d[k - 8];
    }
    forall k | 1 <= k < |lm| ensures lm[k] != 'C' {
      if k < 8 {
        assert lm[k] == ChapterWord[k];
      } else {
        assert IsDigit(lm[k]);
      }
    }
  }

  /** One chapter label occurs in another only at its start. */
  lemma LabelOnlyAtStart(m: nat, n: nat, p: int)
    requires OccursAt(ChapterLabel(m), ChapterLabel(n), p)
    ensures p == 0
  {
    var lm, ln := ChapterLabel(m), ChapterLabel(n);
    LabelShape(m);
    LabelShape(n);
    assert lm[p..p + |ln|][0] == lm[p];
  }

  /** Equal labels are labels of equal numbers. */
  lemma LabelInjective(m: nat, n: nat)
    requires ChapterLabel(m) == ChapterLabel(n)
    ensures m == n
  {
    assert NatToString(m) == ChapterLabel(m)[8..] == ChapterLabel(n)[8..] == NatToString(n);
    DigitsValueOfNatToString(m);
    DigitsValueOfNatToString(n);
  }

  /** Whole-number matching: a question whose refer is the label of chapter
      m belongs to chapter n exactly when m == n. */
  lemma InChapterOfLabel(m: nat, n: nat)
    ensures InChapter(ChapterLabel(m), n) <==> m == n
  {
    var lm, ln := ChapterLabel(m), ChapterLabel(n);
    if m == n {
      assert lm[0..|ln|] == ln;
      assert OccursAt(lm, ln, 0);
    }
    if InChapter(lm, n) {
      var p :| 0 <= p <= |lm| && OccursAt(lm, ln, p) && EndsNumber(lm, p + |ln|);
      LabelOnlyAtStart(m, n, p);
      LabelShape(m);
      LabelShape(n);
      assert |ln| >= |lm|;
      assert lm == lm[0..|ln|] == ln;
      LabelInjective(m, n);
    }
  }

  /** The written test counts every question of chapter 10n + d under
      chapter n too ("Chapter 12" under chapter 1); the intended one does
      not. */
  lemma AsWrittenMatchesLongerNumber(n: nat, d: nat)
    requires n >= 1 && d < 10
    ensures InChapterAsWritten(ChapterLabel(10 * n + d), n)
    ensures !InChapter(ChapterLabel(10 * n + d), n)
  {
    NatToStringAppend(n, d);
    var long := ChapterLabel(10 * n + d);
    assert long == ChapterLabel(n) + [DigitChar(d)];
    assert long[0..|ChapterLabel(n)|] == ChapterLabel(n);
    ContainsIff(long, ChapterLabel(n), 0);
    InChapterOfLabel(10 * n + d, n);
  }

  /** A question of the timeline: its refer and its knowledge points. */
  datatype TimelineQuestion = TimelineQuestion(refer: string, knowledgePoints: Json)

  /** The program's test for a question of chapter n, as written. */
  function BelongsTo(n: nat): TimelineQuestion -> bool {
    (q: TimelineQuestion) => InChapterAsWritten(q.refer, n)
  }

  /** The chapter's questions for the timeline, in order. */
  method ChapterQuestions(questions: seq<TimelineQuestion>, n: nat) returns (selected: seq<TimelineQuestion>)
    ensures selected == DataProcessor.Filter(questions, BelongsTo(n))
  {
    var belongs := BelongsTo(n);
    selected := [];
    for i := 0 to |questions|
      invariant selected == DataProcessor.Filter(questions[..i], belongs)
    {
      DataProcessor.FilterPrefixStep(questions, belongs, i);
      if belongs(questions[i]) {
        selected := selected + [questions[i]];
      }
    }
    assert questions[..|questions|] == questions;
  }

  /** A question is selected exactly when f"Chapter {n}" is a substring of
      its refer. */
  lemma ChapterQuestionsMembers(questions: seq<TimelineQuestion>, n: nat)
    ensures forall q :: q in DataProcessor.Filter(questions, BelongsTo(n)) <==> q in questions && Contains(q.refer, ChapterLabel(n))
  {
    DataProcessor.FilterMembers(questions, BelongsTo(n));
  }

  /** The timeline therefore lists a question of chapter 10n + d among
      chapter n's questions. */
  lemma ChapterQuestionsTakeLongerNumber(questions: seq<TimelineQuestion>, n: nat, d: nat, q: TimelineQuestion)
    requires n >= 1 && d < 10
    requires q in questions && q.refer == ChapterLabel(10 * n + d)
    ensures q in DataProcessor.Filter(questions, BelongsTo(n))
  {
    AsWrittenMatchesLongerNumber(n, d);
    ChapterQuestionsMembers(questions, n);
  }

  // ----------------------------------------------------- knowledge points

  const Uncategorized: string := "Uncategorized"
  const Unrecognised: string := "未识别"

  /** A knowledge_points cell of the table: a list of points, the older
      semicolon-separated text, or a missing value (dropped by dropna). */
  datatype KpCell = KpList(points: seq<string>) | KpText(text: string) | KpMissing

  function Stripped(xs: seq<string>): (r: seq<string>)
    ensures |r| == |xs| && forall k :: 0 <= k < |xs| ==> r[k] == Strip(xs[k])
  {
    DataProcessor.MapSeq(xs, (x: string) => Strip(x))
  }

  /** A stripped point the list branch keeps. */
  predicate Useful(p: string) {
    p != "" && p != Uncategorized
  }

  predicate NonEmpty(p: string) {
    p != ""
  }

  /** [kp.strip() for kp in points if kp.strip() and kp.strip() != 'Uncategorized'] */
  function ListPoints(points: seq<string>): seq<string> {
    DataProcessor.Filter(Stripped(points), Useful)
  }

  /** [kp.strip() for kp in text.split(';') if kp.strip()] */
  function TextPoints(text: string): seq<string> {
    DataProcessor.Filter(Stripped(Split(text, ';')), NonEmpty)
  }

  /** The points analyze_knowledge_points takes from one cell. */
  function CellPoints(cell: KpCell): seq<string> {
    match cell
    case KpList(points) => ListPoints(points)
    case KpText(text) => if text != Unrecognised && text != Uncategorized then TextPoints(text) else []
    case KpMissing => []
  }

  /** All points, cell after cell. */
  function AllPoints(cells: seq<KpCell>): seq<string> {
    if cells == [] then [] else AllPoints(cells[..|cells| - 1]) + CellPoints(cells[|cells| - 1])
  }

  /** The collection loop of analyze_knowledge_points. */
  method CollectKnowledgePoints(cells: seq<KpCell>) returns (all: seq<string>)
    ensures all == AllPoints(cells)
  {
    all := [];
    for i := 0 to |cells|
      invariant all == AllPoints(cells[..i])
    {
      var points: seq<string> := [];
      match cells[i] {
        case KpList(kps) => points := ListPoints(kps);
        case KpText(text) =>
          if text != Unrecognised && text != Uncategorized {
            points := TextPoints(text);
          }
        case KpMissing =>
      }
      assert cells[..i + 1][..i] == cells[..i];
      all := all + points;
    }
    assert cells[..|cells|] == cells;
  }

  /** Every stripped entry is free of whitespace at its ends. */
  lemma StrippedClean(xs: seq<string>)
    ensures forall p :: p in Stripped(xs) ==> NoSpaceAtEnds(p)
  {
  }

  /** A list cell yields exactly its stripped entries that are not empty
      and not 'Uncategorized'. */
  lemma ListPointsMembers(points: seq<string>)
    ensures forall p :: p in ListPoints(points) <==> p in Stripped(points) && Useful(p)
  {
    DataProcessor.FilterMembers(Stripped(points), Useful);
  }

  /** What a filter keeps of stripped entries is stripped and accepted. */
  lemma FilteredStrippedClean(xs: seq<string>, keep: string -> bool)
    ensures forall p :: p in DataProcessor.Filter(Stripped(xs), keep) ==> NoSpaceAtEnds(p) && keep(p)
  {
    DataProcessor.FilterMembers(Stripped(xs), keep);
    StrippedClean(xs);
  }

  lemma ListCellClean(points: seq<string>)
    ensures forall p :: p in ListPoints(points) ==> NoSpaceAtEnds(p) && Useful(p)
  {
    FilteredStrippedClean(points, Useful);
  }

  lemma TextCellClean(text: string)
    ensures forall p :: p in TextPoints(text) ==> NoSpaceAtEnds(p) && p != ""
  {
    FilteredStrippedClean(Split(text, ';'), NonEmpty);
  }

  lemma CellPointsClean(cell: KpCell)
    ensures forall p :: p in CellPoints(cell) ==> NoSpaceAtEnds(p) && p != ""
    ensures cell.KpList? ==> Uncategorized !in CellPoints(cell)
  {
    match cell
    case KpList(points) => ListCellClean(points);
    case KpText(text) => TextCellClean(text);
    case KpMissing =>
  }

  /** Every collected point is stripped and not empty, and list cells never
      contribute 'Uncategorized'. */
  lemma {:induction false} CollectedPointsClean(cells: seq<KpCell>)
    ensures forall p :: p in AllPoints(cells) ==> NoSpaceAtEnds(p) && p != ""
    ensures (forall i :: 0 <= i < |cells| ==> cells[i].KpList?) ==> Uncategorized !in AllPoints(cells)
  {
    if cells != [] {
      var n := |cells| - 1;
      CollectedPointsClean(cells[..n]);
      CellPointsClean(cells[n]);
      if forall i :: 0 <= i < |cells| ==> cells[i].KpList? {
        assert forall i :: 0 <= i < n ==> cells[..n][i] == cells[i];
      }
    }
  }

  // --------------------------------------------------------- the coverage

  const OnePoint: string := "单个知识点"
  const TwoOrThree: string := "2-3个知识点"
  const FourOrMore: string := "4+个知识点"

  /** The bucket of a number of points. */
  function BucketOf(count: nat): string {
    if count == 0 then Unrecognised
    else if count == 1 then OnePoint
    else if count <= 3 then TwoOrThree
    else FourOrMore
  }

  /** The coverage bucket of one cell in plot_knowledge_points_analysis.
      The text branch counts the pieces of the split without dropping empty
      ones. */
  function CoverageBucket(cell: KpCell): string {
    match cell
    case KpList(points) =>
      if points == [] || points == [Uncategorized] then Unrecognised else BucketOf(|ListPoints(points)|)
    case KpText(text) =>
      if text == Unrecognised || text == Uncategorized then Unrecognised else BucketOf(|Split(text, ';')|)
    case KpMissing => Unrecognised
  }

  lemma UncategorizedStripped()
    ensures Strip(Uncategorized) == Uncategorized
  {
    StripFixed(Uncategorized);
  }

  /** For a list the two special cases are the count of zero: the bucket is
      the bucket of the number of useful points. */
  lemma ListBucketIsCount(points: seq<string>)
    ensures CoverageBucket(KpList(points)) == BucketOf(|ListPoints(points)|)
  {
    if points == [Uncategorized] {
      UncategorizedStripped();
      assert Stripped(points) == [Uncategorized];
      assert !Useful(Uncategorized);
      assert ListPoints(points) == [];
    }
  }

  /** A text cell is unrecognised only when it is one of the two markers:
      a split always has at least one piece. */
  lemma TextBucketUnrecognised(text: string)
    ensures CoverageBucket(KpText(text)) == Unrecognised <==> text == Unrecognised || text == Uncategorized
  {
  }

  function CoverageBucketOf(): KpCell -> string {
    (cell: KpCell) => CoverageBucket(cell)
  }

  /** The loop of plot_knowledge_points_analysis: one bucket per row, in
      row order. */
  method CoverageBuckets(cells: seq<KpCell>) returns (buckets: seq<string>)
    ensures |buckets| == |cells|
    ensures forall k :: 0 <= k < |cells| ==> buckets[k] == CoverageBucket(cells[k])
  {
    buckets := DataProcessor.MapEach(cells, CoverageBucketOf());
  }

  /** Buckets follow the count: one point, two or three, four or more. */
  lemma BucketOfOrdered(a: nat, b: nat)
    requires 1 <= a <= b
    ensures BucketOf(a) == FourOrMore ==> BucketOf(b) == FourOrMore
    ensures BucketOf(b) == OnePoint ==> BucketOf(a) == OnePoint
    ensures BucketOf(a) != Unrecognised
  {
  }

  // -------------------------------------------------------- chapter labels

  const LabelLength: nat := 20

  /** refer[:20] + '...' if len(refer) > 20 else refer */
  function FallbackLabel(refer: string): (r: string)
    ensures |r| <= LabelLength + 3
    ensures |refer| <= LabelLength ==> r == refer
    ensures |refer| > LabelLength ==> |r| == LabelLength + 3 && r[..LabelLength] == refer[..LabelLength]
  {
    if |refer| > LabelLength then refer[..LabelLength] + "..." else refer
  }

  /** A label is its own label: shortening twice is shortening once. */
  lemma FallbackLabelIdempotent(refer: string)
    ensures FallbackLabel(FallbackLabel(refer)) == FallbackLabel(refer)
  {
    if |refer| > LabelLength {
      var r := FallbackLabel(refer);
      assert r[..LabelLength] == refer[..LabelLength];
    }
  }

  /** The chapter key of plot_chapter_importance_analysis: the number the
      chapter pattern found in refer (the regex search is a parameter),
      otherwise the shortened refer. */
  datatype ChapterKey = Numbered(chapter: nat) | Labelled(name: string)

  function ChapterKeyOf(refer: Json, found: Option<nat>): (r: ChapterKey)
    ensures found.Some? ==> r == Numbered(found.value)
    ensures found.None? ==> r == Labelled(FallbackLabel(PyStr(refer)))
    ensures found.None? ==> r.Labelled? && |r.name| <= LabelLength + 3
  {
    match found
    case Some(n) => Numbered(n)
    case None => Labelled(FallbackLabel(PyStr(refer)))
  }
}
