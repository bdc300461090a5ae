/** The component-name search of the admin dashboard, in its two variants:
    the fuzzy ranker (subsequence matching, used by the component service and
    the flowchart dialog) and the substring ranker of the graph dialog. Both
    lower-case the query and the names, ignore queries shorter than two
    characters, sort with a comparator and keep the first ten names. Sorting
    is a stable sort under the order the comparator induces; `localeCompare`
    is modelled as code-unit order. */
module Search {
  import opened Wrappers
  import opened Seqs
  import opened Text

  const MinQueryLength := 2
  const MaxResults := 10

  /** Lexicographic order on character codes. */
  predicate LexLe(a: string, b: string)
    decreases |a|
  {
    a == [] || (b != [] && (a[0] < b[0] || (a[0] == b[0] && LexLe(a[1..], b[1..]))))
  }

  lemma {:induction false} LexLeReflexive(a: string)
    ensures LexLe(a, a)
    decreases |a|
  {
    if a != [] {
      LexLeReflexive(a[1..]);
    }
  }

  lemma {:induction false} LexLeTotal(a: string, b: string)
    ensures LexLe(a, b) || LexLe(b, a)
    decreases |a|
  {
    if a != [] && b != [] && a[0] == b[0] {
      LexLeTotal(a[1..], b[1..]);
    }
  }

  lemma {:induction false} LexLeTransitive(a: string, b: string, c: string)
    requires LexLe(a, b) && LexLe(b, c)
    ensures LexLe(a, c)
    decreases |a|
  {
    if a != [] && a[0] == b[0] && b[0] == c[0] {
      LexLeTransitive(a[1..], b[1..], c[1..]);
    }
  }

  /** `a.localeCompare(b)` on lower-cased names: its sign. */
  function LocaleCompare(a: string, b: string): int {
    if a == b then 0 else if LexLe(a, b) then -1 else 1
  }

  lemma LocaleCompareIsLexLe(a: string, b: string)
    ensures LocaleCompare(a, b) <= 0 <==> LexLe(a, b)
  {
    LexLeReflexive(a);
  }

  // ---------------------------------------------------------------------
  // Fuzzy ranker

  /** The filter callback on a lower-cased name and query, as written: an
      exact, prefix or substring hit, or else the in-order character scan. */
  method MatchesQuery(nameLower: string, queryLower: string) returns (b: bool)
    ensures b <==> IsSubsequence(queryLower, nameLower)
  {
    if nameLower == queryLower {
      SubsequenceOfSelfPrefix(queryLower, []);
      assert queryLower + [] == queryLower;
      return true;
    }
    if IsPrefix(queryLower, nameLower) {
      PrefixIsContained(queryLower, nameLower);
      ContainsIsSubsequence(nameLower, queryLower);
      return true;
    }
    if Contains(nameLower, queryLower) {
      ContainsIsSubsequence(nameLower, queryLower);
      return true;
    }
    var queryIndex := 0;
    var i := 0;
    while i < |nameLower| && queryIndex < |queryLower|
      invariant 0 <= i <= |nameLower| && 0 <= queryIndex <= |queryLower|
      invariant IsSubsequence(queryLower, nameLower) == IsSubsequence(queryLower[queryIndex..], nameLower[i..])
      decreases |nameLower| - i
    {
      assert nameLower[i..][1..] == nameLower[i + 1..];
      if nameLower[i] == queryLower[queryIndex] {
        assert queryLower[queryIndex..][1..] == queryLower[queryIndex + 1..];
        queryIndex := queryIndex + 1;
      }
      i := i + 1;
    }
    b := queryIndex == |queryLower|;
  }

  /** The match test as a predicate: subsequence of the lower-cased name. */
  function FuzzyFilter(queryLower: string): string -> bool {
    (name: string) => IsSubsequence(queryLower, ToLower(name))
  }

  /** The relevance class of a lower-cased name: 0 exact, 1 prefix, 2
      substring, 3 scattered. */
  function Rank(nameLower: string, queryLower: string): nat {
    if nameLower == queryLower then 0
    else if IsPrefix(queryLower, nameLower) then 1
    else if Contains(nameLower, queryLower) then 2
    else 3
  }

  /** The sort comparator, as written, on lower-cased names. */
  function FuzzyCompare(queryLower: string, a: string, b: string): int {
    if a == queryLower && b != queryLower then -1
    else if b == queryLower && a != queryLower then 1
    else if IsPrefix(queryLower, a) && !IsPrefix(queryLower, b) then -1
    else if IsPrefix(queryLower, b) && !IsPrefix(queryLower, a) then 1
    else if Contains(a, queryLower) && !Contains(b, queryLower) then -1
    else if Contains(b, queryLower) && !Contains(a, queryLower) then 1
    else LocaleCompare(a, b)
  }

  /** The comparator orders by relevance class, then alphabetically. */
  lemma FuzzyCompareByRank(queryLower: string, a: string, b: string)
    ensures FuzzyCompare(queryLower, a, b) <= 0 <==>
      Rank(a, queryLower) < Rank(b, queryLower) || (Rank(a, queryLower) == Rank(b, queryLower) && LexLe(a, b))
  {
    assert IsPrefix(queryLower, queryLower);
    if IsPrefix(queryLower, a) {
      PrefixIsContained(queryLower, a);
    }
    if IsPrefix(queryLower, b) {
      PrefixIsContained(queryLower, b);
    }
    LocaleCompareIsLexLe(a, b);
  }

  /** "`a` may precede `b`" for the sort: the comparator is not positive. */
  function FuzzyOrder(queryLower: string): (string, string) -> bool {
    (a: string, b: string) => FuzzyCompare(queryLower, ToLower(a), ToLower(b)) <= 0
  }

  lemma FuzzyOrderIsPreorder(queryLower: string)
    ensures IsTotalPreorder(FuzzyOrder(queryLower))
  {
    var le := FuzzyOrder(queryLower);
    forall a, b ensures le(a, b) || le(b, a) {
      FuzzyCompareByRank(queryLower, ToLower(a), ToLower(b));
      FuzzyCompareByRank(queryLower, ToLower(b), ToLower(a));
      LexLeTotal(ToLower(a), ToLower(b));
    }
    forall a, b, c | le(a, b) && le(b, c) ensures le(a, c) {
      FuzzyCompareByRank(queryLower, ToLower(a), ToLower(b));
      FuzzyCompareByRank(queryLower, ToLower(b), ToLower(c));
      FuzzyCompareByRank(queryLower, ToLower(a), ToLower(c));
      if LexLe(ToLower(a), ToLower(b)) && LexLe(ToLower(b), ToLower(c)) {
        LexLeTransitive(ToLower(a), ToLower(b), ToLower(c));
      }
    }
  }

  /** `performFuzzySearch` / `fuzzySearchComponents` over the catalogue names. */
  function FuzzySearch(names: seq<string>, query: string): seq<string> {
    if |query| < MinQueryLength then []
    else Take(Sort(Filter(names, FuzzyFilter(ToLower(query))), FuzzyOrder(ToLower(query))), MaxResults)
  }

  /** The result: empty for a short query; otherwise the first ten of the
      sorted matches: `min(10, matches)` catalogue names, each holding the
      query's characters in order (ignoring case), sorted by the comparator,
      with no match left out ranking strictly before a kept one. */
  lemma {:induction false} FuzzySearchResult(names: seq<string>, query: string)
    ensures |query| < MinQueryLength ==> FuzzySearch(names, query) == []
    ensures |FuzzySearch(names, query)| <= MaxResults
    ensures forall n :: n in FuzzySearch(names, query) ==> n in names && IsSubsequence(ToLower(query), ToLower(n))
    ensures SortedBy(FuzzySearch(names, query), FuzzyOrder(ToLower(query)))
    ensures |query| >= MinQueryLength ==>
      FirstSorted(FuzzySearch(names, query), Filter(names, FuzzyFilter(ToLower(query))), FuzzyOrder(ToLower(query)), MaxResults)
  {
    if |query| >= MinQueryLength {
      var q := ToLower(query);
      var matches := Filter(names, FuzzyFilter(q));
      FuzzyOrderIsPreorder(q);
      FirstOfSortedMatches(names, FuzzyFilter(q), FuzzyOrder(q), MaxResults);
    }
  }

  /** A name equal to the query (ignoring case) comes first. */
  lemma {:induction false} FuzzyExactFirst(names: seq<string>, query: string, exact: string)
    requires |query| >= MinQueryLength && exact in names && ToLower(exact) == ToLower(query)
    ensures FuzzySearch(names, query) != [] && ToLower(FuzzySearch(names, query)[0]) == ToLower(query)
  {
    var q := ToLower(query);
    var matches := Filter(names, FuzzyFilter(q));
    SubsequenceOfSelfPrefix(q, []);
    assert q + [] == q;
    assert FuzzyFilter(q)(exact);
    assert exact in matches;
    FuzzyOrderIsPreorder(q);
    var head := SortHeadIsLeast(matches, FuzzyOrder(q), MaxResults, exact);
    FuzzyCompareByRank(q, ToLower(head), ToLower(exact));
  }

  /** `handleComponentNameSearch`: suggestions only while creating and with
      at least two characters typed; the list is shown iff it is non-empty. */
  datatype DialogMode = Create | Edit

  function NameSuggestions(mode: DialogMode, value: string, names: seq<string>): (r: (seq<string>, bool))
    ensures r.1 <==> r.0 != []
    ensures r.0 != [] ==> mode == Create && |value| >= MinQueryLength
  {
    if mode == Create && |value| >= MinQueryLength then
      var results := FuzzySearch(names, value);
      (results, |results| > 0)
    else ([], false)
  }

  // ---------------------------------------------------------------------
  // Substring ranker

  function SubstringFilter(queryLower: string): string -> bool {
    (name: string) => Contains(ToLower(name), queryLower)
  }

  /** The graph dialog's comparator, as written, on lower-cased names. */
  function SubstringCompare(queryLower: string, a: string, b: string): int {
    if a == queryLower then -1
    else if b == queryLower then 1
    else IndexOf(a, queryLower) - IndexOf(b, queryLower)
  }

  /** The sort key: an exact match before everything, then the position of
      the first occurrence. */
  function SubstringKey(queryLower: string, nameLower: string): int {
    if nameLower == queryLower then -1 else IndexOf(nameLower, queryLower)
  }

  /** On names that contain the query, the comparator agrees with the key
      except on two exact matches, where it answers "first" both ways. */
  lemma SubstringCompareByKey(queryLower: string, a: string, b: string)
    requires Contains(a, queryLower) && Contains(b, queryLower)
    ensures !(a == queryLower && b == queryLower) ==>
      (SubstringCompare(queryLower, a, b) <= 0 <==> SubstringKey(queryLower, a) <= SubstringKey(queryLower, b))
    ensures a == queryLower && b == queryLower ==>
      SubstringCompare(queryLower, a, b) < 0 && SubstringCompare(queryLower, b, a) < 0
  {
    IndexOfFound(a, queryLower);
    IndexOfFound(b, queryLower);
  }

  function SubstringOrder(queryLower: string): (string, string) -> bool {
    (a: string, b: string) => SubstringKey(queryLower, ToLower(a)) <= SubstringKey(queryLower, ToLower(b))
  }

  lemma SubstringOrderIsPreorder(queryLower: string)
    ensures IsTotalPreorder(SubstringOrder(queryLower))
  {
    var le := SubstringOrder(queryLower);
    forall a, b ensures le(a, b) || le(b, a) {
    }
    forall a, b, c | le(a, b) && le(b, c) ensures le(a, c) {
    }
  }

  /** The graph dialog's `performFuzzySearch`. */
  function SubstringSearch(names: seq<string>, query: string): seq<string> {
    if |query| < MinQueryLength then []
    else Take(Sort(Filter(names, SubstringFilter(ToLower(query))), SubstringOrder(ToLower(query))), MaxResults)
  }

  /** The result: empty for a short query; otherwise the first ten of the
      sorted matches: `min(10, matches)` catalogue names, each containing the
      query as a substring (ignoring case), exact matches first, then by the
      position of the first occurrence, with no match left out ranking
      strictly before a kept one. */
  lemma {:induction false} SubstringSearchResult(names: seq<string>, query: string)
    ensures |query| < MinQueryLength ==> SubstringSearch(names, query) == []
    ensures |SubstringSearch(names, query)| <= MaxResults
    ensures forall n :: n in SubstringSearch(names, query) ==> n in names && Contains(ToLower(n), ToLower(query))
    ensures SortedBy(SubstringSearch(names, query), SubstringOrder(ToLower(query)))
    ensures |query| >= MinQueryLength ==>
      FirstSorted(SubstringSearch(names, query), Filter(names, SubstringFilter(ToLower(query))), SubstringOrder(ToLower(query)), MaxResults)
    ensures |query| >= MinQueryLength ==>
      FirstSorted(SubstringSearch(names, query), Filter(names, SubstringFilter(ToLower(query))), SubstringOrder(ToLower(query)), MaxResults)
  {
    if |query| >= MinQueryLength {
      SubstringSearchFacts(names, query);
    }
  }

  lemma SubstringSearchFacts(names: seq<string>, query: string)
    requires |query| >= MinQueryLength
    ensures FirstSorted(SubstringSearch(names, query), Filter(names, SubstringFilter(ToLower(query))), SubstringOrder(ToLower(query)), MaxResults)
    ensures forall n :: n in SubstringSearch(names, query) ==> n in names && Contains(ToLower(n), ToLower(query))
  {
    SubstringTopMatches(names, ToLower(query));
  }

  /** The first ten matches under the key order, with the preorder facts kept
      out of the caller's proof. */
  lemma SubstringTopMatches(names: seq<string>, q: string)
    ensures FirstSorted(Take(Sort(Filter(names, SubstringFilter(q)), SubstringOrder(q)), MaxResults),
                        Filter(names, SubstringFilter(q)), SubstringOrder(q), MaxResults)
    ensures forall x :: x in Take(Sort(Filter(names, SubstringFilter(q)), SubstringOrder(q)), MaxResults) ==>
      x in names && Contains(ToLower(x), q)
  {
    SubstringSortIsSorted(Filter(names, SubstringFilter(q)), q);
    FirstOfSortedMatches(names, SubstringFilter(q), SubstringOrder(q), MaxResults);
  }

  lemma SubstringSortIsSorted(matches: seq<string>, q: string)
    ensures SortedBy(Sort(matches, SubstringOrder(q)), SubstringOrder(q))
  {
    SubstringOrderIsPreorder(q);
  }

  /** A matching name that may precede an exact match is itself exact. */
  lemma SubstringLeastIsExact(queryLower: string, head: string, exact: string)
    requires Contains(ToLower(head), queryLower) && ToLower(exact) == queryLower
    requires SubstringOrder(queryLower)(head, exact)
    ensures ToLower(head) == queryLower
  {
    IndexOfFound(ToLower(head), queryLower);
  }

  /** A name equal to the query (ignoring case) comes first. */
  lemma {:induction false} SubstringExactFirst(names: seq<string>, query: string, exact: string)
    requires |query| >= MinQueryLength && exact in names && ToLower(exact) == ToLower(query)
    ensures SubstringSearch(names, query) != [] && ToLower(SubstringSearch(names, query)[0]) == ToLower(query)
  {
    var q := ToLower(query);
    var matches := Filter(names, SubstringFilter(q));
    assert OccursAt(q, ToLower(exact), 0);
    assert SubstringFilter(q)(exact);
    SubstringOrderIsPreorder(q);
    var head := SortHeadIsLeast(matches, SubstringOrder(q), MaxResults, exact);
    assert SubstringFilter(q)(head);
    SubstringLeastIsExact(q, head, exact);
  }

  /** The two rankers differ: "abc" answers the query "ac" in the fuzzy
      ranker, but not in the substring ranker. */
  lemma RankersDiffer()
    ensures IsSubsequence("ac", "abc") && !Contains("abc", "ac")
  {
    forall i | 0 <= i <= 3 ensures !OccursAt("ac", "abc", i) {
      if i == 0 {
        assert "abc"[0..2][1] == 'b';
      } else if i == 1 {
        assert "abc"[1..3][0] == 'b';
      }
    }
    assert IsSubsequence("c", "bc") by {
      assert "bc"[1..] == "c";
      assert IsSubsequence("c"[1..], "c"[1..]);
    }
    assert "abc"[1..] == "bc" && "ac"[1..] == "c";
  }

  /** `handleSubmit` in the graph dialog: a blank name or a negative amount
      stops the submission with a message. */
  function SubmitError(name: string, amount: real): Option<string> {
    if Trim(name) == [] then Some("Component name is required")
    else if amount < 0.0 then Some("Amount cannot be negative")
    else None
  }

  /** The dialog submits exactly when the name is not blank and the amount
      not negative. */
  lemma SubmitErrorIffInvalid(name: string, amount: real)
    ensures SubmitError(name, amount).None? <==> Trim(name) != [] && amount >= 0.0
    ensures Trim(name) == [] ==> SubmitError(name, amount) == Some("Component name is required")
  {
  }
}
