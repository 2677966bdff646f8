/**
 * The knowledge-base MCP service: `kb_get` (look an article up by id) and `kb_search`
 * (score candidate articles by query-word hits, rank them by score descending and title
 * ascending, keep the first `limit`). The SQL pre-filter that produces the candidate rows
 * is not modelled: the candidates are an input, in the order the database returned them.
 */
module KbServer {
  import opened Wrappers
  import Text

  /** One row of the `Knowledge` table; `tags` is a nullable column. */
  datatype Article = Article(
    articleId: string,
    accountId: string,
    title: string,
    content: string,
    tags: Option<string>)

  /**
   * The dictionary a tool response carries for one article. `score` is `None` when
   * the dictionary has no "score" key.
   */
  datatype ArticleDict = ArticleDict(
    articleId: string,
    accountId: string,
    title: string,
    content: string,
    tags: Option<string>,
    score: Option<real>)

  /** The keys every article dictionary has. */
  const BaseKeys: set<string> := {"article_id", "account_id", "title", "content", "tags"}

  /** The key set of the dictionary `d` stands for. */
  function Keys(d: ArticleDict): set<string> {
    if d.score.Some? then BaseKeys + {"score"} else BaseKeys
  }

  /** `_article_to_dict`: copy the row's five columns, and add "score" only when one is given. */
  function ArticleToDict(a: Article, score: Option<real>): (d: ArticleDict)
    ensures "score" in Keys(d) <==> score.Some?
    ensures Keys(d) - {"score"} == BaseKeys
    ensures d.articleId == a.articleId && d.accountId == a.accountId && d.title == a.title
    ensures d.content == a.content && d.tags == a.tags
    ensures score.Some? ==> d.score == score
  {
    ArticleDict(a.articleId, a.accountId, a.title, a.content, a.tags, score)
  }

  /** `row` is the first of `rows` whose id is `articleId`. */
  predicate FirstWithId(rows: seq<Article>, articleId: string, i: nat) {
    i < |rows| && rows[i].articleId == articleId
    && forall j :: 0 <= j < i ==> rows[j].articleId != articleId
  }

  /**
   * `kb_get`: the first row with that id (the query's `.first()`), as a dictionary without
   * a score; `None` when no row has that id.
   */
  function KbGet(rows: seq<Article>, articleId: string): (r: Option<ArticleDict>)
    ensures r.None? <==> forall i :: 0 <= i < |rows| ==> rows[i].articleId != articleId
    ensures r.Some? ==> exists i: nat :: FirstWithId(rows, articleId, i) && r.value == ArticleToDict(rows[i], None)
    ensures r.Some? ==> r.value.articleId == articleId && "score" !in Keys(r.value)
  {
    if rows == [] then None
    else if rows[0].articleId == articleId then
      assert FirstWithId(rows, articleId, 0);
      Some(ArticleToDict(rows[0], None))
    else
      var r := KbGet(rows[1..], articleId);
      assert r.Some? ==> exists i: nat :: FirstWithId(rows, articleId, i) && r.value == ArticleToDict(rows[i], None) by {
        if r.Some? {
          var i: nat :| FirstWithId(rows[1..], articleId, i) && r.value == ArticleToDict(rows[1..][i], None);
          assert FirstWithId(rows, articleId, i + 1);
        }
      }
      assert r.None? ==> forall i :: 0 <= i < |rows| ==> rows[i].articleId != articleId by {
        if r.None? {
          forall i | 0 < i < |rows| ensures rows[i].articleId != articleId {
            assert rows[i] == rows[1..][i - 1];
          }
        }
      }
      r
  }

  // ---------------------------------------------------------------------------
  // Scoring

  /** `art.tags or ''`. */
  function TagsText(tags: Option<string>): string {
    tags.GetOr("")
  }

  /** The text a query word is looked for in: title, content and tags, lower-cased. */
  function SearchText(a: Article): string {
    Text.Lower(a.title + "\n" + a.content + "\n" + TagsText(a.tags))
  }

  /** The article with its title, content and tags lower-cased. */
  function Lowered(a: Article): Article {
    a.(title := Text.Lower(a.title), content := Text.Lower(a.content),
       tags := if a.tags.Some? then Some(Text.Lower(a.tags.value)) else None)
  }

  /** An article scores the same as its lower-cased copy: matching ignores the case of the article. */
  lemma SearchTextIgnoresCase(a: Article)
    ensures SearchText(Lowered(a)) == SearchText(a)
  {
    SearchTextSplits(a);
    var b := Lowered(a);
    SearchTextSplits(b);
    assert TagsText(b.tags) == Text.Lower(TagsText(a.tags));
    Text.LowerIdempotent(a.title);
    Text.LowerIdempotent(a.content);
    Text.LowerIdempotent(TagsText(a.tags));
  }

  /** The searched text is each column lower-cased on its own, joined by newlines. */
  lemma SearchTextSplits(a: Article)
    ensures SearchText(a) == Text.Lower(a.title) + "\n" + Text.Lower(a.content) + "\n" + Text.Lower(TagsText(a.tags))
  {
    var nl := "\n";
    assert Text.Lower(nl) == nl;
    Text.LowerAppend(a.title + nl + a.content + nl, TagsText(a.tags));
    Text.LowerAppend(a.title + nl + a.content, nl);
    Text.LowerAppend(a.title + nl, a.content);
    Text.LowerAppend(a.title, nl);
  }

  /** The `if w.strip()` filter of the query-word comprehension. */
  function KeepNonBlank(ws: seq<string>): (r: seq<string>)
    ensures |r| <= |ws|
    ensures forall k :: 0 <= k < |r| ==> !Text.IsBlank(r[k])
  {
    if ws == [] then []
    else
      Text.StripEmptyIffBlank(ws[0]);
      if Text.Strip(ws[0]) != [] then [ws[0]] + KeepNonBlank(ws[1..])
      else KeepNonBlank(ws[1..])
  }

  /** `w.lower()` for every word. */
  function LowerAll(ws: seq<string>): (r: seq<string>)
    ensures |r| == |ws|
    ensures forall k :: 0 <= k < |ws| ==> r[k] == Text.Lower(ws[k])
  {
    seq(|ws|, k requires 0 <= k < |ws| => Text.Lower(ws[k]))
  }

  /** `query_words`, for the already stripped query `q`. */
  function QueryWords(q: string): seq<string> {
    LowerAll(KeepNonBlank(Text.Words(q)))
  }

  /** The filter keeps every word `split()` produces: it never removes one. */
  lemma QueryWordsAreSplitWords(q: string)
    ensures QueryWords(q) == LowerAll(Text.Words(q))
  {
    Text.WordsAreWords(q);
    KeepEveryWord(Text.Words(q));
  }

  lemma {:induction false} KeepEveryWord(ws: seq<string>)
    requires forall k :: 0 <= k < |ws| ==> Text.IsWord(ws[k])
    ensures KeepNonBlank(ws) == ws
  {
    if ws != [] {
      assert !Text.IsSpace(ws[0][0]);
      Text.StripEmptyIffBlank(ws[0]);
      KeepEveryWord(ws[1..]);
      assert ws == [ws[0]] + ws[1..];
    }
  }

  /** `sum(1 for w in words if w in text)`: every word that occurs counts once per repetition. */
  function CountHits(words: seq<string>, text: string): (n: nat)
    ensures n <= |words|
    ensures n == 0 <==> forall k :: 0 <= k < |words| ==> !Text.Contains(text, words[k])
    ensures n == |words| <==> forall k :: 0 <= k < |words| ==> Text.Contains(text, words[k])
  {
    if words == [] then 0
    else
      var rest := CountHits(words[1..], text);
      assert forall k :: 0 < k < |words| ==> words[k] == words[1..][k - 1];
      (if Text.Contains(text, words[0]) then 1 else 0) + rest
  }

  /** Counting over two lists of words adds up: a word repeated in the query counts each time. */
  lemma {:induction false} CountHitsAppend(a: seq<string>, b: seq<string>, text: string)
    ensures CountHits(a + b, text) == CountHits(a, text) + CountHits(b, text)
  {
    if a != [] {
      assert (a + b)[1..] == a[1..] + b;
      CountHitsAppend(a[1..], b, text);
    } else {
      assert a + b == b;
    }
  }

  /** `hits` for one article. */
  function ArticleScore(words: seq<string>, a: Article): nat {
    CountHits(words, SearchText(a))
  }

  /** The dictionary `kb_search` appends for one candidate. */
  function Scored(words: seq<string>, a: Article): ArticleDict {
    ArticleToDict(a, Some(ArticleScore(words, a) as real))
  }

  /** `scored` after the loop over the candidates. */
  function ScoreAll(words: seq<string>, cands: seq<Article>): (r: seq<ArticleDict>)
    ensures |r| == |cands|
    ensures forall k :: 0 <= k < |cands| ==> r[k] == Scored(words, cands[k])
  {
    if cands == [] then []
    else ScoreAll(words, cands[..|cands| - 1]) + [Scored(words, cands[|cands| - 1])]
  }

  // ---------------------------------------------------------------------------
  // Ranking: `scored.sort(key=lambda a: (-a.get("score", 0.0), a["title"]))`

  /** `a.get("score", 0.0)`. */
  function ScoreOf(d: ArticleDict): real {
    d.score.GetOr(0.0)
  }

  /** The sort key of `x` is smaller than that of `y`: `x` goes strictly before `y`. */
  predicate Before(x: ArticleDict, y: ArticleDict) {
    ScoreOf(x) > ScoreOf(y) || (ScoreOf(x) == ScoreOf(y) && Text.Less(x.title, y.title))
  }

  /** `x` may stand before `y`: a higher score, or the same score and a title not after. */
  predicate Ranked(x: ArticleDict, y: ArticleDict) {
    ScoreOf(x) > ScoreOf(y) || (ScoreOf(x) == ScoreOf(y) && !Text.Less(y.title, x.title))
  }

  /** `x` and `y` have the same sort key. */
  predicate SameKey(x: ArticleDict, y: ArticleDict) {
    ScoreOf(x) == ScoreOf(y) && x.title == y.title
  }

  /** Score descending, ties by title ascending, across every pair of positions. */
  predicate SortedByRank(s: seq<ArticleDict>) {
    forall i, j :: 0 <= i < j < |s| ==> Ranked(s[i], s[j])
  }

  /** The elements of `s` whose sort key is that of `e`, in their order in `s`. */
  function WithKeyOf(s: seq<ArticleDict>, e: ArticleDict): seq<ArticleDict> {
    if s == [] then []
    else WithKeyOf(s[..|s| - 1], e) + (if SameKey(s[|s| - 1], e) then [s[|s| - 1]] else [])
  }

  lemma RankedTransitive(a: ArticleDict, b: ArticleDict, c: ArticleDict)
    requires Ranked(a, b) && Ranked(b, c)
    ensures Ranked(a, c)
  {
    if ScoreOf(a) == ScoreOf(c) {
      Text.LessTotal(a.title, b.title);
      Text.LessTotal(b.title, c.title);
      if Text.Less(a.title, b.title) && Text.Less(b.title, c.title) {
        Text.LessTransitive(a.title, b.title, c.title);
        Text.LessAsymmetric(a.title, c.title);
      } else if Text.Less(a.title, b.title) {
        Text.LessAsymmetric(a.title, b.title);
      } else if Text.Less(b.title, c.title) {
        Text.LessAsymmetric(b.title, c.title);
      } else {
        Text.LessIrreflexive(a.title);
      }
    }
  }

  lemma BeforeIsRanked(x: ArticleDict, y: ArticleDict)
    requires Before(x, y)
    ensures Ranked(x, y) && !SameKey(x, y)
  {
    if ScoreOf(x) == ScoreOf(y) {
      Text.LessAsymmetric(x.title, y.title);
      if x.title == y.title { Text.LessIrreflexive(x.title); }
    }
  }

  /** Insertion of `x` into `s` from the right, passing every element `x` must go before. */
  function Insert(s: seq<ArticleDict>, x: ArticleDict): seq<ArticleDict> {
    if s == [] then [x]
    else if Before(x, s[|s| - 1]) then Insert(s[..|s| - 1], x) + [s[|s| - 1]]
    else s + [x]
  }

  /** The stable sort of `s` by the key: elements with equal keys keep their order. */
  function InsertionSort(s: seq<ArticleDict>): seq<ArticleDict> {
    if s == [] then []
    else Insert(InsertionSort(s[..|s| - 1]), s[|s| - 1])
  }

  lemma {:induction false} InsertPermutes(s: seq<ArticleDict>, x: ArticleDict)
    ensures multiset(Insert(s, x)) == multiset(s) + multiset{x}
  {
    if s != [] && Before(x, s[|s| - 1]) {
      InsertPermutes(s[..|s| - 1], x);
      assert s == s[..|s| - 1] + [s[|s| - 1]];
    }
  }

  lemma {:induction false} InsertSorted(s: seq<ArticleDict>, x: ArticleDict)
    requires SortedByRank(s)
    ensures SortedByRank(Insert(s, x))
  {
    if s == [] {
    } else if Before(x, s[|s| - 1]) {
      var last := s[|s| - 1];
      var init := s[..|s| - 1];
      InsertSorted(init, x);
      var r := Insert(init, x);
      InsertPermutes(init, x);
      BeforeIsRanked(x, last);
      forall k | 0 <= k < |r| ensures Ranked(r[k], last) {
        assert r[k] in multiset(r);
        if r[k] != x {
          assert r[k] in multiset(init);
          var m :| 0 <= m < |init| && init[m] == r[k];
          assert s[m] == init[m];
        }
      }
    } else {
      var last := s[|s| - 1];
      forall k | 0 <= k < |s| - 1 ensures Ranked(s[k], x) {
        RankedTransitive(s[k], last, x);
      }
    }
  }

  lemma {:induction false} InsertKeepsKeyOrder(s: seq<ArticleDict>, x: ArticleDict, e: ArticleDict)
    ensures WithKeyOf(Insert(s, x), e) == WithKeyOf(s, e) + (if SameKey(x, e) then [x] else [])
  {
    if s == [] {
      assert WithKeyOf([x], e) == WithKeyOf([], e) + (if SameKey(x, e) then [x] else []);
    } else if Before(x, s[|s| - 1]) {
      var last := s[|s| - 1];
      var init := s[..|s| - 1];
      InsertKeepsKeyOrder(init, x, e);
      BeforeIsRanked(x, last);
      var r := Insert(init, x) + [last];
      assert r[..|r| - 1] == Insert(init, x);
    } else {
      var r := s + [x];
      assert r[..|r| - 1] == s;
    }
  }

  /** The sorted list is ordered by score descending, then title ascending. */
  lemma {:induction false} InsertionSortSorted(s: seq<ArticleDict>)
    ensures SortedByRank(InsertionSort(s))
  {
    if s != [] {
      InsertionSortSorted(s[..|s| - 1]);
      InsertSorted(InsertionSort(s[..|s| - 1]), s[|s| - 1]);
    }
  }

  /** The sorted list is a permutation of the input. */
  lemma {:induction false} InsertionSortPermutes(s: seq<ArticleDict>)
    ensures multiset(InsertionSort(s)) == multiset(s)
  {
    if s != [] {
      var init, last := s[..|s| - 1], s[|s| - 1];
      var t := InsertionSort(init);
      assert InsertionSort(s) == Insert(t, last);
      InsertionSortPermutes(init);
      InsertPermutes(t, last);
      assert s == init + [last];
      assert multiset(s) == multiset(init) + multiset{last};
    }
  }

  /** The sort is stable: the elements sharing a key come out in their input order. */
  lemma {:induction false} InsertionSortStable(s: seq<ArticleDict>, e: ArticleDict)
    ensures WithKeyOf(InsertionSort(s), e) == WithKeyOf(s, e)
  {
    if s != [] {
      InsertionSortStable(s[..|s| - 1], e);
      InsertKeepsKeyOrder(InsertionSort(s[..|s| - 1]), s[|s| - 1], e);
    }
  }

  /** Inserting `x` at the position the in-place loop stops at gives `Insert(s, x)`. */
  lemma {:induction false} InsertAt(s: seq<ArticleDict>, x: ArticleDict, j: nat)
    requires j <= |s|
    requires forall k :: j <= k < |s| ==> Before(x, s[k])
    requires j > 0 ==> !Before(x, s[j - 1])
    ensures Insert(s, x) == s[..j] + [x] + s[j..]
  {
    if j < |s| {
      var init := s[..|s| - 1];
      assert forall k :: j <= k < |init| ==> init[k] == s[k];
      InsertAt(init, x, j);
      assert init[..j] == s[..j];
      assert init[j..] + [s[|s| - 1]] == s[j..];
    } else if s != [] {
      assert s[..j] == s;
    }
  }

  /** `scored.sort(...)`: an in-place insertion sort, which is stable like Python's. */
  method SortInPlace(a: array<ArticleDict>)
    modifies a
    ensures a[..] == InsertionSort(old(a[..]))
  {
    ghost var orig := a[..];
    var i := 0;
    while i < a.Length
      invariant 0 <= i <= a.Length
      invariant a[..i] == InsertionSort(orig[..i])
      invariant a[i..] == orig[i..]
    {
      InsertNext(a, i);
      assert orig[..i + 1][..i] == orig[..i];
      assert orig[..i + 1] == orig[..i] + [orig[i]];
      i := i + 1;
    }
    assert orig[..a.Length] == orig;
  }

  /** One pass of the insertion sort: move `a[i]` left into the prefix `a[..i]`. */
  method InsertNext(a: array<ArticleDict>, i: nat)
    requires i < a.Length
    modifies a
    ensures a[..i + 1] == Insert(old(a[..i]), old(a[i]))
    ensures a[i + 1..] == old(a[i + 1..])
  {
    ghost var prefix := a[..i];
    ghost var rest := a[i + 1..];
    var x := a[i];
    var j := i;
    while j > 0 && Before(x, a[j - 1])
      invariant 0 <= j <= i
      invariant a[..j] == prefix[..j]
      invariant a[j + 1..i + 1] == prefix[j..i]
      invariant forall k :: j <= k < i ==> Before(x, prefix[k])
      invariant a[i + 1..] == rest
    {
      a[j] := a[j - 1];
      j := j - 1;
    }
    a[j] := x;
    InsertAt(prefix, x, j);
    assert a[..i + 1] == prefix[..j] + [x] + prefix[j..];
  }

  // ---------------------------------------------------------------------------
  // kb_search

  /** Python's `s[:limit]`; a negative `limit` drops that many elements from the end. */
  function PyPrefix<T>(s: seq<T>, limit: int): (r: seq<T>)
    ensures limit >= 0 ==> |r| == if limit < |s| then limit else |s|
    ensures limit < 0 ==> |r| == if -limit < |s| then |s| + limit else 0
    ensures r == s[..|r|]
  {
    if limit >= 0 then (if limit < |s| then s[..limit] else s)
    else if -limit < |s| then s[..|s| + limit] else []
  }

  /** The candidates scored against `words`, ranked, and cut to `limit`. */
  function Ranking(words: seq<string>, cands: seq<Article>, limit: int): seq<ArticleDict> {
    PyPrefix(InsertionSort(ScoreAll(words, cands)), limit)
  }

  /** What `kb_search(query, limit)` returns when the database yields `cands`. */
  function KbSearchResult(query: string, cands: seq<Article>, limit: int): seq<ArticleDict> {
    var q := Text.Strip(query);
    if q == [] then [] else Ranking(QueryWords(q), cands, limit)
  }

  /** `kb_search`: score each candidate, sort the list in place, slice it. */
  method KbSearch(query: string, cands: seq<Article>, limit: int) returns (r: seq<ArticleDict>)
    ensures r == KbSearchResult(query, cands, limit)
  {
    var q := Text.Strip(query);
    if q == [] {
      return [];
    }
    var words := QueryWords(q);
    var scored := ScoreCandidates(words, cands);
    var a := ToArray(scored);
    SortInPlace(a);
    r := PyPrefix(a[..], limit);
  }

  /** A fresh array holding `s`: the list `scored` that `sort` rearranges in place. */
  method ToArray(s: seq<ArticleDict>) returns (a: array<ArticleDict>)
    ensures fresh(a) && a[..] == s
  {
    a := new ArticleDict[|s|](k requires 0 <= k < |s| => s[k]);
    assert forall k :: 0 <= k < |s| ==> a[k] == s[k];
  }

  /** The loop of `kb_search` that appends one scored dictionary per candidate. */
  method ScoreCandidates(words: seq<string>, cands: seq<Article>) returns (scored: seq<ArticleDict>)
    ensures scored == ScoreAll(words, cands)
  {
    scored := [];
    var i := 0;
    while i < |cands|
      invariant 0 <= i <= |cands|
      invariant scored == ScoreAll(words, cands[..i])
    {
      var art := cands[i];
      var text := SearchText(art);
      var hits := CountHits(words, text);
      scored := scored + [ArticleToDict(art, Some(hits as real))];
      assert cands[..i + 1][..i] == cands[..i];
      i := i + 1;
    }
    assert cands[..|cands|] == cands;
  }

  // ---------------------------------------------------------------------------
  // Properties of kb_search

  /** `x` is a whole number between 0 and `bound`. */
  predicate IsCount(x: real, bound: nat) {
    x.Floor as real == x && 0 <= x.Floor <= bound
  }

  /**
   * `kb_search` returns nothing for an empty or all-whitespace query; otherwise it ranks
   * the candidates against the lower-cased, whitespace-split words of the query.
   */
  lemma KbSearchIsRanking(query: string, cands: seq<Article>, limit: int)
    ensures Text.IsBlank(query) ==> KbSearchResult(query, cands, limit) == []
    ensures !Text.IsBlank(query) ==>
              KbSearchResult(query, cands, limit) == Ranking(QueryWords(Text.Strip(query)), cands, limit)
              && QueryWords(Text.Strip(query)) == LowerAll(Text.Words(query))
  {
    Text.StripEmptyIffBlank(query);
    QueryWordsAreSplitWords(Text.Strip(query));
    Text.WordsOfStrip(query);
  }

  /** With `limit >= 0` the ranking keeps `min(limit, |cands|)` articles. */
  lemma RankingLength(words: seq<string>, cands: seq<Article>, limit: int)
    requires limit >= 0
    ensures |Ranking(words, cands, limit)| == if limit < |cands| then limit else |cands|
  {
    var all := ScoreAll(words, cands);
    InsertionSortPermutes(all);
    assert |multiset(InsertionSort(all))| == |multiset(all)|;
  }

  /** The ranking is ordered by score descending, ties broken by title ascending. */
  lemma RankingSorted(words: seq<string>, cands: seq<Article>, limit: int)
    ensures SortedByRank(Ranking(words, cands, limit))
  {
    InsertionSortSorted(ScoreAll(words, cands));
  }

  /**
   * No article is invented or duplicated: the ranking is the prefix of a permutation of
   * the scored candidates.
   */
  lemma RankingFromCandidates(words: seq<string>, cands: seq<Article>, limit: int)
    ensures var r := Ranking(words, cands, limit);
            multiset(r) <= multiset(ScoreAll(words, cands))
            && exists p: seq<ArticleDict> :: multiset(p) == multiset(ScoreAll(words, cands)) && |r| <= |p| && r == p[..|r|]
  {
    var all := ScoreAll(words, cands);
    var p := InsertionSort(all);
    var r := Ranking(words, cands, limit);
    InsertionSortPermutes(all);
    assert p == r + p[|r|..];
    assert multiset(p) == multiset(r) + multiset(p[|r|..]);
  }

  /**
   * Every ranked article is one of the candidates and carries as its score the number of
   * query words found in its text: a whole number between 0 and the number of words.
   */
  lemma RankingScores(words: seq<string>, cands: seq<Article>, limit: int)
    ensures var r := Ranking(words, cands, limit);
            forall i :: 0 <= i < |r| ==>
              exists k :: 0 <= k < |cands| && r[i] == Scored(words, cands[k])
    ensures var r := Ranking(words, cands, limit);
            forall i :: 0 <= i < |r| ==> r[i].score.Some? && IsCount(r[i].score.value, |words|)
  {
    var r := Ranking(words, cands, limit);
    var all := ScoreAll(words, cands);
    RankingFromCandidates(words, cands, limit);
    forall i | 0 <= i < |r|
      ensures exists k :: 0 <= k < |cands| && r[i] == Scored(words, cands[k])
      ensures r[i].score.Some? && IsCount(r[i].score.value, |words|)
    {
      assert r[i] in multiset(r);
      assert r[i] in multiset(all);
      var k :| 0 <= k < |all| && all[k] == r[i];
      assert r[i].score == Some(ArticleScore(words, cands[k]) as real);
    }
  }
}
