/**
  The client-side part of the goods search: the query list `getGoods`
  sends, and the relevance ranking `searchGoods` applies to the documents
  the database returns.
*/
module Search {
  import opened Wrappers
  import opened Text
  import opened Sorting
  import opened Catalog
  import opened SeqFacts

  // ---------------------------------------------------------------------------
  // Query list

  /** The query clauses, kept opaque: only their kind and arguments matter here. */
  datatype Query =
    | OrderAsc(attribute: string)
    | Limit(count: int)
    | Equal(attribute: string, value: string)
    | FullText(attribute: string, text: string)
    | Either(clauses: seq<Query>)

  /** Whether `if (limit)` takes the branch: a limit is given and is not 0. */
  predicate HasLimit(limit: Option<int>) {
    limit.Some? && limit.value != 0
  }

  /** The search clause over name, description and category. */
  function SearchClause(query: string): Query {
    Either([FullText("name", query), FullText("description", query), FullText("category", query)])
  }

  /**
    The query list: order by creation, a limit (100 unless one is given),
    then a category filter unless the filter is empty or "All", then the
    search clause unless the query is empty.
  */
  function GoodsQuery(filter: string, query: string, limit: Option<int>): seq<Query> {
    [OrderAsc("$createdAt"), Limit(if HasLimit(limit) then limit.value else 100)]
      + (if filter != "" && filter != "All" then [Equal("category", filter)] else [])
      + (if query != "" then [SearchClause(query)] else [])
  }

  /** `getGoods`' query builder: pushes the optional clauses, then overwrites the limit in place. */
  method BuildGoodsQuery(filter: string, query: string, limit: Option<int>) returns (buildQuery: seq<Query>)
    ensures buildQuery == GoodsQuery(filter, query, limit)
  {
    buildQuery := [OrderAsc("$createdAt"), Limit(100)];
    if filter != "" && filter != "All" {
      buildQuery := buildQuery + [Equal("category", filter)];
    }
    if query != "" {
      buildQuery := buildQuery + [SearchClause(query)];
    }
    if HasLimit(limit) {
      buildQuery := buildQuery[1 := Limit(limit.value)];
    }
  }

  /**
    The query list always starts with the ordering and one limit; a given
    limit replaces the default rather than adding a clause; the category
    clause is present exactly for a filter other than "" and "All", and the
    search clause exactly for a non-empty query, always last.
  */
  lemma GoodsQueryShape(filter: string, query: string, limit: Option<int>)
    ensures var q := GoodsQuery(filter, query, limit);
      && |q| == 2 + (if filter != "" && filter != "All" then 1 else 0) + (if query != "" then 1 else 0)
      && q[0] == OrderAsc("$createdAt")
      && q[1] == Limit(if HasLimit(limit) then limit.value else 100)
      && (forall k | 2 <= k < |q| :: !q[k].Limit? && !q[k].OrderAsc?)
      && (Equal("category", filter) in q <==> filter != "" && filter != "All")
      && (query != "" <==> q[|q| - 1] == SearchClause(query))
  {
  }

  lemma DefaultQuery(limit: Option<int>)
    requires !HasLimit(limit)
    ensures GoodsQuery("", "", limit) == [OrderAsc("$createdAt"), Limit(100)]
    ensures GoodsQuery("All", "", limit) == [OrderAsc("$createdAt"), Limit(100)]
  {
  }

  // ---------------------------------------------------------------------------
  // Query words

  /** `query.toLowerCase().trim()`. */
  function LowerQuery(query: string): string {
    Trim(ToLower(query))
  }

  /** The words longer than two characters. */
  function LongWords(ws: seq<string>): (r: seq<string>)
    ensures |r| <= |ws|
    ensures forall k | 0 <= k < |r| :: |r[k]| > 2 && r[k] in ws
  {
    if |ws| == 0 then []
    else LongWords(ws[..|ws| - 1]) + (if |ws[|ws| - 1]| > 2 then [ws[|ws| - 1]] else [])
  }

  /** Exactly the words longer than two characters are kept. */
  lemma {:induction false} LongWordsMembers(ws: seq<string>, w: string)
    ensures w in LongWords(ws) <==> w in ws && |w| > 2
  {
    if |ws| > 0 {
      LongWordsMembers(ws[..|ws| - 1], w);
      assert ws == ws[..|ws| - 1] + [ws[|ws| - 1]];
    }
  }

  /** The filter works piecewise, so the kept words stay in split order. */
  lemma {:induction false} LongWordsAppend(a: seq<string>, b: seq<string>)
    ensures LongWords(a + b) == LongWords(a) + LongWords(b)
    decreases |b|
  {
    if |b| == 0 {
      AppendEmpty(a, b);
    } else {
      var b', x := b[..|b| - 1], b[|b| - 1];
      var tail := if |x| > 2 then [x] else [];
      LongWordsAppend(a, b');
      DropLastAppend(a, b);
      assert (a + b)[|a + b| - 1] == x;
      assert LongWords(a + b) == LongWords(a + b') + tail;
      assert LongWords(b) == LongWords(b') + tail;
    }
  }

  /** One word is kept exactly when it is longer than two characters. */
  lemma LongWordsSingle(w: string)
    ensures LongWords([w]) == if |w| > 2 then [w] else []
  {
    assert [w][..0] == [];
  }

  /** `lowerQuery.split(/\s+/).filter(word => word.length > 2)`. */
  function QueryWords(lowerQuery: string): seq<string> {
    LongWords(SplitWhitespace(lowerQuery))
  }

  /**
    The query words are exactly the pieces of the split of the trimmed
    lower-case query that are longer than two characters, and none of them
    holds whitespace.
  */
  lemma QueryWordsShape(query: string)
    ensures forall k | 0 <= k < |QueryWords(LowerQuery(query))| ::
      |QueryWords(LowerQuery(query))[k]| > 2 && NoSpace(QueryWords(LowerQuery(query))[k])
    ensures forall w :: w in QueryWords(LowerQuery(query)) <==>
      w in SplitWhitespace(LowerQuery(query)) && |w| > 2
  {
    var lq := LowerQuery(query);
    SplitFromNoSpace(lq, "");
    forall w ensures w in QueryWords(lq) <==> w in SplitWhitespace(lq) && |w| > 2 {
      LongWordsMembers(SplitWhitespace(lq), w);
    }
  }

  // ---------------------------------------------------------------------------
  // Score

  /** Exact (+200), prefix (+80), and whole word (+70) or else substring (+40). */
  function PhraseScore(name: string, lowerQuery: string): real {
    (if name == lowerQuery then 200.0 else 0.0)
      + (if StartsWith(name, lowerQuery) then 80.0 else 0.0)
      + (if ContainsWholeWord(name, lowerQuery) then 70.0 else if Contains(name, lowerQuery) then 40.0 else 0.0)
  }

  /** Query word against the name word at `index`: equal 15 × (3, 2, 1), contained 5 × (2, 1.5, 1). */
  function PairScore(queryWord: string, nameWord: string, index: nat): real {
    if nameWord == queryWord then 15.0 * (if index == 0 then 3.0 else if index == 1 then 2.0 else 1.0)
    else if Contains(nameWord, queryWord) then 5.0 * (if index == 0 then 2.0 else if index == 1 then 1.5 else 1.0)
    else 0.0
  }

  /** One query word against the first `n` name words. */
  function RowScore(queryWord: string, nameWords: seq<string>, n: nat): real
    requires n <= |nameWords|
  {
    if n == 0 then 0.0 else RowScore(queryWord, nameWords, n - 1) + PairScore(queryWord, nameWords[n - 1], n - 1)
  }

  /** The first `m` query words against all name words. */
  function WordScore(queryWords: seq<string>, nameWords: seq<string>, m: nat): real
    requires m <= |queryWords|
  {
    if m == 0 then 0.0
    else WordScore(queryWords, nameWords, m - 1) + RowScore(queryWords[m - 1], nameWords, |nameWords|)
  }

  predicate AllPresent(name: string, queryWords: seq<string>) {
    forall k | 0 <= k < |queryWords| :: Contains(name, queryWords[k])
  }

  /**
    The in-order test: each word is looked up with `indexOf` just after the
    previous word's position, and must be found strictly after it.
  */
  function InOrderFrom(name: string, queryWords: seq<string>, last: int): bool
    requires last >= -1
    requires forall k | 0 <= k < |queryWords| :: |queryWords[k]| > 0
  {
    if |queryWords| == 0 then true
    else
      var index := IndexOf(name, queryWords[0], last + 1);
      if index <= last then false else InOrderFrom(name, queryWords[1..], index)
  }

  /** Multi-word queries: all words present +40, and in order a further +30. */
  function MultiWordScore(name: string, queryWords: seq<string>): real
    requires forall k | 0 <= k < |queryWords| :: |queryWords[k]| > 0
  {
    if |queryWords| > 1 && AllPresent(name, queryWords) then
      40.0 + (if InOrderFrom(name, queryWords, -1) then 30.0 else 0.0)
    else 0.0
  }

  function RawScore(name: string, lowerQuery: string, queryWords: seq<string>): real
    requires forall k | 0 <= k < |queryWords| :: |queryWords[k]| > 0
  {
    PhraseScore(name, lowerQuery)
      + WordScore(queryWords, SplitWhitespace(name), |queryWords|)
      + MultiWordScore(name, queryWords)
  }

  /** `min / max` of the two lengths; 1 when both are 0. */
  function LengthRatio(lowerQuery: string, name: string): (r: real)
    ensures 0.0 <= r <= 1.0
  {
    var lo, hi := if |lowerQuery| < |name| then |lowerQuery| else |name|, if |lowerQuery| < |name| then |name| else |lowerQuery|;
    if hi == 0 then 1.0 else lo as real / hi as real
  }

  /** A raw score scaled by `0.7 + 0.3 · lengthRatio`. */
  function Scaled(raw: real, ratio: real): real {
    raw * (0.7 + 0.3 * ratio)
  }

  /** The final score: the raw score scaled by the length ratio. */
  function Score(name: string, lowerQuery: string, queryWords: seq<string>): real
    requires forall k | 0 <= k < |queryWords| :: |queryWords[k]| > 0
  {
    Scaled(RawScore(name, lowerQuery, queryWords), LengthRatio(lowerQuery, name))
  }

  lemma {:induction false} RowScoreNonNegative(queryWord: string, nameWords: seq<string>, n: nat)
    requires n <= |nameWords|
    ensures RowScore(queryWord, nameWords, n) >= 0.0
  {
    if n > 0 {
      RowScoreNonNegative(queryWord, nameWords, n - 1);
    }
  }

  lemma {:induction false} WordScoreNonNegative(queryWords: seq<string>, nameWords: seq<string>, m: nat)
    requires m <= |queryWords|
    ensures WordScore(queryWords, nameWords, m) >= 0.0
  {
    if m > 0 {
      WordScoreNonNegative(queryWords, nameWords, m - 1);
      RowScoreNonNegative(queryWords[m - 1], nameWords, |nameWords|);
    }
  }

  lemma ScaleBounds(raw: real, ratio: real)
    requires raw >= 0.0 && 0.0 <= ratio <= 1.0
    ensures 0.7 * raw <= Scaled(raw, ratio) <= raw
  {
    assert raw * (0.7 + 0.3 * ratio) == 0.7 * raw + 0.3 * (raw * ratio);
    assert 0.0 <= raw * ratio <= raw * 1.0;
  }

  /** The raw score is never negative. */
  lemma RawScoreNonNegative(name: string, lowerQuery: string, queryWords: seq<string>)
    requires forall k | 0 <= k < |queryWords| :: |queryWords[k]| > 0
    ensures RawScore(name, lowerQuery, queryWords) >= 0.0
  {
    WordScoreNonNegative(queryWords, SplitWhitespace(name), |queryWords|);
  }

  /** The length ratio only shrinks the score, and by at most 30%. */
  lemma ScoreBounds(name: string, lowerQuery: string, queryWords: seq<string>)
    requires forall k | 0 <= k < |queryWords| :: |queryWords[k]| > 0
    ensures 0.7 * RawScore(name, lowerQuery, queryWords) <= Score(name, lowerQuery, queryWords)
      <= RawScore(name, lowerQuery, queryWords)
  {
    var raw := RawScore(name, lowerQuery, queryWords);
    var ratio := LengthRatio(lowerQuery, name);
    RawScoreNonNegative(name, lowerQuery, queryWords);
    ScaleBounds(raw, ratio);
  }

  /**
    A name equal to the lower-case query earns the exact (+200) and prefix
    (+80) bonuses, and +70 as a whole word when the query starts and ends
    with a word character.
  */
  lemma ExactNamePhraseScore(lowerQuery: string)
    ensures PhraseScore(lowerQuery, lowerQuery) >= 320.0
    ensures |lowerQuery| > 0 && IsWordChar(lowerQuery[0]) && IsWordChar(lowerQuery[|lowerQuery| - 1]) ==>
      PhraseScore(lowerQuery, lowerQuery) == 350.0
  {
    assert MatchAt(lowerQuery, lowerQuery, 0);
    if |lowerQuery| > 0 && IsWordChar(lowerQuery[0]) && IsWordChar(lowerQuery[|lowerQuery| - 1]) {
      WholeWordOfItself(lowerQuery);
    }
  }

  /** A query of at most one long word earns no multi-word bonus. */
  lemma SingleWordNoBonus(name: string, queryWords: seq<string>)
    requires forall k | 0 <= k < |queryWords| :: |queryWords[k]| > 0
    requires |queryWords| <= 1
    ensures MultiWordScore(name, queryWords) == 0.0
  {
  }

  // ---------------------------------------------------------------------------
  // In-order test

  /**
    The reference definition: the words occur in `name` at strictly
    increasing positions, all after `last`.
  */
  predicate OccurInOrder(name: string, queryWords: seq<string>, last: int)
    decreases |queryWords|
  {
    |queryWords| == 0
      || exists p | last < p <= |name| :: MatchAt(name, queryWords[0], p) && OccurInOrder(name, queryWords[1..], p)
  }

  lemma {:induction false} OccurInOrderWeaken(name: string, queryWords: seq<string>, last: int, earlier: int)
    requires earlier <= last && OccurInOrder(name, queryWords, last)
    ensures OccurInOrder(name, queryWords, earlier)
  {
  }

  /**
    The greedy `indexOf` scan succeeds exactly when the words occur at
    strictly increasing positions.
  */
  lemma {:induction false} InOrderIff(name: string, queryWords: seq<string>, last: int)
    requires last >= -1
    requires forall k | 0 <= k < |queryWords| :: |queryWords[k]| > 0
    ensures InOrderFrom(name, queryWords, last) <==> OccurInOrder(name, queryWords, last)
    decreases |queryWords|
  {
    if |queryWords| > 0 {
      var w, rest := queryWords[0], queryWords[1..];
      var index := IndexOf(name, w, last + 1);
      if index > last {
        InOrderIff(name, rest, index);
        if OccurInOrder(name, queryWords, last) {
          var p :| last < p <= |name| && MatchAt(name, w, p) && OccurInOrder(name, rest, p);
          assert index <= p;
          OccurInOrderWeaken(name, rest, p, index);
        }
      }
    }
  }

  /** The in-order loop, leaving at the first word not found after the previous one. */
  method WordsInOrder(name: string, queryWords: seq<string>) returns (inOrder: bool)
    requires forall k | 0 <= k < |queryWords| :: |queryWords[k]| > 0
    ensures inOrder == InOrderFrom(name, queryWords, -1)
  {
    inOrder := true;
    var lastIndex := -1;
    var i := 0;
    while i < |queryWords|
      invariant 0 <= i <= |queryWords| && lastIndex >= -1
      invariant InOrderFrom(name, queryWords, -1) == InOrderFrom(name, queryWords[i..], lastIndex)
    {
      var word := queryWords[i];
      var index := IndexOf(name, word, lastIndex + 1);
      assert queryWords[i..][1..] == queryWords[i + 1..];
      if index <= lastIndex {
        inOrder := false;
        break;
      }
      lastIndex := index;
      i := i + 1;
    }
  }

  // ---------------------------------------------------------------------------
  // Scoring loop and ranking

  /** The phrase part of the scoring: exact, prefix, whole-word or substring. */
  method ScorePhrase(name: string, lowerQuery: string) returns (score: real)
    ensures score == PhraseScore(name, lowerQuery)
  {
    score := 0.0;
    if name == lowerQuery {
      score := score + 200.0;
    }
    if StartsWith(name, lowerQuery) {
      score := score + 80.0;
    }
    if ContainsWholeWord(name, lowerQuery) {
      score := score + 70.0;
    } else if Contains(name, lowerQuery) {
      score := score + 40.0;
    }
  }

  /** The inner loop: one query word against every name word, by position. */
  method ScoreRow(queryWord: string, nameWords: seq<string>) returns (score: real)
    ensures score == RowScore(queryWord, nameWords, |nameWords|)
  {
    score := 0.0;
    var index := 0;
    while index < |nameWords|
      invariant 0 <= index <= |nameWords|
      invariant score == RowScore(queryWord, nameWords, index)
    {
      var nameWord := nameWords[index];
      if nameWord == queryWord {
        var positionMultiplier := if index == 0 then 3.0 else if index == 1 then 2.0 else 1.0;
        score := score + 15.0 * positionMultiplier;
      } else if Contains(nameWord, queryWord) {
        var positionMultiplier := if index == 0 then 2.0 else if index == 1 then 1.5 else 1.0;
        score := score + 5.0 * positionMultiplier;
      }
      index := index + 1;
    }
  }

  /** The multi-word bonus: only for more than one query word, and only when all are present. */
  method ScoreMultiWord(name: string, queryWords: seq<string>) returns (score: real)
    requires forall k | 0 <= k < |queryWords| :: |queryWords[k]| > 0
    ensures score == MultiWordScore(name, queryWords)
  {
    score := 0.0;
    if |queryWords| > 1 {
      if AllPresent(name, queryWords) {
        score := score + 40.0;
        var inOrder := WordsInOrder(name, queryWords);
        if inOrder {
          score := score + 30.0;
        }
      }
    }
  }

  /** The three parts of the raw score, summed. */
  method ScoreRaw(name: string, lowerQuery: string, queryWords: seq<string>) returns (raw: real)
    requires forall k | 0 <= k < |queryWords| :: |queryWords[k]| > 0
    ensures raw == RawScore(name, lowerQuery, queryWords)
  {
    var phrase := ScorePhrase(name, lowerQuery);
    var words := ScoreWords(queryWords, SplitWhitespace(name));
    var bonus := ScoreMultiWord(name, queryWords);
    raw := phrase + words + bonus;
  }

  /** The per-word part: every query word against every name word. */
  method ScoreWords(queryWords: seq<string>, nameWords: seq<string>) returns (words: real)
    requires forall k | 0 <= k < |queryWords| :: |queryWords[k]| > 0
    ensures words == WordScore(queryWords, nameWords, |queryWords|)
  {
    words := 0.0;
    var q := 0;
    while q < |queryWords|
      invariant 0 <= q <= |queryWords|
      invariant words == WordScore(queryWords, nameWords, q)
    {
      var row := ScoreRow(queryWords[q], nameWords);
      words := words + row;
      q := q + 1;
    }
  }

  /** `score *= (0.7 + 0.3 * lengthRatio)`. */
  method Scale(raw: real, name: string, lowerQuery: string) returns (score: real)
    ensures score == Scaled(raw, LengthRatio(lowerQuery, name))
  {
    var lengthRatio := LengthRatio(lowerQuery, name);
    score := raw * (0.7 + 0.3 * lengthRatio);
  }

  /** The scoring of one document name: the raw score, scaled by the length ratio. */
  method ScoreName(name: string, lowerQuery: string, queryWords: seq<string>) returns (score: real)
    requires forall k | 0 <= k < |queryWords| :: |queryWords[k]| > 0
    ensures score == Score(name, lowerQuery, queryWords)
  {
    var raw := ScoreRaw(name, lowerQuery, queryWords);
    score := Scale(raw, name, lowerQuery);
  }

  /** A document with its score. */
  datatype Scored = Scored(doc: Good, score: real)

  /** Sort key of `(a, b) => b.score - a.score`: the higher score first. */
  predicate Higher(a: Scored, b: Scored) {
    a.score > b.score
  }

  /** One document with the score of its lower-cased name. */
  function ScoreDoc(d: Good, lowerQuery: string, queryWords: seq<string>): Scored
    requires forall k | 0 <= k < |queryWords| :: |queryWords[k]| > 0
  {
    Scored(d, Score(ToLower(d.name), lowerQuery, queryWords))
  }

  function ScoreAll(docs: seq<Good>, lowerQuery: string, queryWords: seq<string>): (r: seq<Scored>)
    requires forall k | 0 <= k < |queryWords| :: |queryWords[k]| > 0
    ensures |r| == |docs|
    ensures forall k | 0 <= k < |docs| :: r[k] == ScoreDoc(docs[k], lowerQuery, queryWords)
  {
    if |docs| == 0 then []
    else ScoreAll(docs[..|docs| - 1], lowerQuery, queryWords) + [ScoreDoc(docs[|docs| - 1], lowerQuery, queryWords)]
  }

  function Docs(s: seq<Scored>): (r: seq<Good>)
    ensures |r| == |s| && forall k | 0 <= k < |s| :: r[k] == s[k].doc
  {
    if |s| == 0 then [] else Docs(s[..|s| - 1]) + [s[|s| - 1].doc]
  }

  /** The relevance score of a document for a query. */
  function Relevance(query: string, d: Good): real {
    var lq := LowerQuery(query);
    QueryWordsShape(query);
    Score(ToLower(d.name), lq, QueryWords(lq))
  }

  /** Every document paired with its relevance, in database order. */
  function ScoredDocs(query: string, docs: seq<Good>): seq<Scored> {
    var lq := LowerQuery(query);
    QueryWordsShape(query);
    ScoreAll(docs, lq, QueryWords(lq))
  }

  /** The documents in decreasing score order, equal scores in database order. */
  function Ranking(query: string, docs: seq<Good>): seq<Good> {
    Docs(InsertionSort(ScoredDocs(query, docs), Higher))
  }

  /**
    `searchGoods` after the fetch: nothing when the fetch failed or found
    nothing; otherwise every document scored, the scored list sorted in
    place by decreasing score, and the documents returned in that order.
  */
  method SearchGoods(query: string, fetched: Option<seq<Good>>) returns (ranked: seq<Good>)
    ensures fetched.None? ==> ranked == []
    ensures fetched.Some? ==> ranked == Ranking(query, fetched.value)
  {
    if fetched.None? || |fetched.value| == 0 {
      return [];
    }
    var documents := fetched.value;
    var lowerQuery := LowerQuery(query);
    QueryWordsShape(query);
    var queryWords := QueryWords(lowerQuery);
    var scoredDocuments := ScoreDocuments(documents, lowerQuery, queryWords);
    SortInPlace(scoredDocuments, Higher);
    ranked := Docs(scoredDocuments[..]);
  }

  /** `documents.map(doc => ({ doc, score }))` into a fresh array. */
  method ScoreDocuments(documents: seq<Good>, lowerQuery: string, queryWords: seq<string>)
    returns (scoredDocuments: array<Scored>)
    requires |documents| > 0
    requires forall k | 0 <= k < |queryWords| :: |queryWords[k]| > 0
    ensures fresh(scoredDocuments)
    ensures scoredDocuments[..] == ScoreAll(documents, lowerQuery, queryWords)
  {
    scoredDocuments := new Scored[|documents|](k => Scored(documents[0], 0.0));
    var k := 0;
    while k < |documents|
      invariant 0 <= k <= |documents|
      invariant scoredDocuments[..k] == ScoreAll(documents[..k], lowerQuery, queryWords)
    {
      var name := ToLower(documents[k].name);
      var score := ScoreName(name, lowerQuery, queryWords);
      scoredDocuments[k] := Scored(documents[k], score);
      assert documents[..k + 1][..k] == documents[..k];
      k := k + 1;
    }
    assert documents[..k] == documents;
    assert scoredDocuments[..] == scoredDocuments[..k];
  }

  lemma HigherIsStrictWeakOrder()
    ensures StrictWeakOrder(Higher)
  {
  }

  lemma {:induction false} DocsAppend(a: seq<Scored>, b: seq<Scored>)
    ensures Docs(a + b) == Docs(a) + Docs(b)
  {
    assert |Docs(a + b)| == |Docs(a) + Docs(b)|;
  }

  /** The documents of `t` are those of `t` without entry `k`, plus `t[k]`'s. */
  lemma DocsRemove(t: seq<Scored>, k: nat)
    requires k < |t|
    ensures multiset(Docs(t)) == multiset(Docs(t[..k] + t[k + 1..])) + multiset{t[k].doc}
  {
    var before, x, after := t[..k], t[k], t[k + 1..];
    SplitAt(t, k);
    DocsAppend(before + [x], after);
    DocsAppend(before, [x]);
    DocsAppend(before, after);
    assert Docs([x]) == [x.doc];
    var db, da := Docs(before), Docs(after);
    assert Docs(t) == db + [x.doc] + da;
    assert multiset(db + [x.doc] + da) == multiset(db) + multiset{x.doc} + multiset(da);
  }

  lemma {:induction false} DocsPermutes(s: seq<Scored>, t: seq<Scored>)
    requires multiset(s) == multiset(t)
    ensures multiset(Docs(s)) == multiset(Docs(t))
    decreases |s|
  {
    if |s| > 0 {
      var init, x := s[..|s| - 1], s[|s| - 1];
      assert x in multiset(t);
      var k :| 0 <= k < |t| && t[k] == x;
      var rest := t[..k] + t[k + 1..];
      assert multiset(init) == multiset(rest) by {
        assert s == init + [x];
        assert t == t[..k] + [x] + t[k + 1..];
        assert multiset(init) == multiset(s) - multiset{x};
        assert multiset(rest) == multiset(t) - multiset{x};
      }
      DocsPermutes(init, rest);
      DocsRemove(t, k);
      DocsAppend(init, [x]);
      assert s == init + [x];
    }
  }

  /** Every scored entry carries its document's relevance. */
  predicate ScoredByRelevance(query: string, s: seq<Scored>) {
    forall i | 0 <= i < |s| :: s[i].score == Relevance(query, s[i].doc)
  }

  /** Scoring pairs each fetched document, in order, with its relevance. */
  lemma ScoredDocsByRelevance(query: string, docs: seq<Good>)
    ensures ScoredByRelevance(query, ScoredDocs(query, docs))
    ensures Docs(ScoredDocs(query, docs)) == docs
  {
  }

  /** Reordering scored entries keeps each one's relevance. */
  lemma PermutedByRelevance(query: string, s: seq<Scored>, t: seq<Scored>)
    requires multiset(s) == multiset(t) && ScoredByRelevance(query, t)
    ensures ScoredByRelevance(query, s)
  {
    forall i | 0 <= i < |s| ensures s[i].score == Relevance(query, s[i].doc) {
      assert s[i] in multiset(t);
      var k :| 0 <= k < |t| && t[k] == s[i];
    }
  }

  /** The ranking holds the fetched documents, each as often. */
  lemma RankingPermutes(query: string, docs: seq<Good>)
    ensures multiset(Ranking(query, docs)) == multiset(docs)
  {
    var scored := ScoredDocs(query, docs);
    SortPermutes(scored, Higher);
    DocsPermutes(InsertionSort(scored, Higher), scored);
    ScoredDocsByRelevance(query, docs);
  }

  /** The ranking lists documents in non-increasing relevance. */
  lemma RankingOrdered(query: string, docs: seq<Good>)
    ensures var r := Ranking(query, docs);
      forall i, j | 0 <= i < j < |r| :: Relevance(query, r[i]) >= Relevance(query, r[j])
  {
    var scored := ScoredDocs(query, docs);
    var sorted := InsertionSort(scored, Higher);
    HigherIsStrictWeakOrder();
    SortSorts(scored, Higher);
    SortPermutes(scored, Higher);
    ScoredDocsByRelevance(query, docs);
    PermutedByRelevance(query, sorted, scored);
    assert Sorted(sorted, Higher);
  }

  /**
    The ranking contract: the same documents, each as often, in
    non-increasing relevance; and documents of equal relevance in database
    order.
  */
  lemma RankingContract(query: string, docs: seq<Good>, y: Scored)
    ensures var r := Ranking(query, docs);
      && multiset(r) == multiset(docs)
      && forall i, j | 0 <= i < j < |r| :: Relevance(query, r[i]) >= Relevance(query, r[j])
    ensures TiedWith(InsertionSort(ScoredDocs(query, docs), Higher), y, Higher)
      == TiedWith(ScoredDocs(query, docs), y, Higher)
  {
    RankingPermutes(query, docs);
    RankingOrdered(query, docs);
    HigherIsStrictWeakOrder();
    SortIsStable(ScoredDocs(query, docs), y, Higher);
  }
}
