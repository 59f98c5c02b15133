/**
 * The stock reader's search phrases and, as a function of what each stock's
 * search extracted, what a sweep over the stock list leaves in the combined
 * per-stock results.
 */
module StockCampaign {
  import opened Wrappers
  import opened Text
  import opened Query
  import opened DateKey
  import opened Tweets

  // ---------------------------------------------------------------------------
  // Search phrases for one stock
  // ---------------------------------------------------------------------------

  /** The words appended to the stock name, one search phrase each; the first is empty. */
  const Modifiers: seq<string> := ["", "shares", "stock", "Sentiment", "buy", "sell"]

  /** One quoted phrase per modifier: `"<stock> <modifier>"`. */
  function StockPhrases(stock: string): seq<string>
  {
    seq(|Modifiers|, i requires 0 <= i < |Modifiers| => "\"" + stock + " " + Modifiers[i] + "\"")
  }

  /**
   * Each phrase is the stock name between a double quote and a space, then
   * its modifier, then a closing double quote.
   */
  lemma StockPhraseParts(stock: string, i: nat)
    requires i < |Modifiers|
    ensures var p := StockPhrases(stock)[i];
      |p| == |stock| + |Modifiers[i]| + 3 &&
      p[0] == '"' && p[1..|stock| + 1] == stock && p[|stock| + 1] == ' ' &&
      p[|stock| + 2..|p| - 1] == Modifiers[i] && p[|p| - 1] == '"'
  {
    var p := StockPhrases(stock)[i];
    assert p == "\"" + stock + " " + Modifiers[i] + "\"";
  }

  /**
   * The six phrases of a stock are pairwise different, and the first one
   * closes its quote after a space: `"<stock> "`.
   */
  lemma StockPhrasesDistinct(stock: string)
    ensures forall i, j :: 0 <= i < j < |Modifiers| ==> StockPhrases(stock)[i] != StockPhrases(stock)[j]
    ensures StockPhrases(stock)[0] == "\"" + stock + " \""
  {
    forall i, j | 0 <= i < j < |Modifiers|
      ensures StockPhrases(stock)[i] != StockPhrases(stock)[j]
    {
      StockPhraseParts(stock, i);
      StockPhraseParts(stock, j);
    }
    assert "\"" + stock + " " + "" + "\"" == "\"" + stock + " \"";
  }

  /**
   * The query sent for a stock holds its six phrases in order, " OR " between
   * neighbours; with an empty exclude list it is that clause and one space.
   */
  lemma StockQueryShape(stock: string, excludeList: seq<string>, i: nat)
    requires i < |Modifiers|
    ensures var phrases := StockPhrases(stock);
      var q := SearchQuery(phrases, excludeList);
      var o := Offset(phrases, " OR ", i);
      o + |phrases[i]| <= |q| && q[o..o + |phrases[i]|] == phrases[i] &&
      (i + 1 < |Modifiers| ==> o + |phrases[i]| + 4 <= |q| && q[o + |phrases[i]|..o + |phrases[i]| + 4] == " OR ") &&
      (excludeList == [] ==> q == SearchClause(phrases) + " ")
  {
    var phrases := StockPhrases(stock);
    var clause := SearchClause(phrases);
    JoinLayout(phrases, " OR ", i);
    SearchQueryShape(phrases, excludeList);
    var q := SearchQuery(phrases, excludeList);
    var o, len := Offset(phrases, " OR ", i), |phrases[i]|;
    PrefixSlice(q, clause, o, o + len);
    if i + 1 < |Modifiers| {
      assert |" OR "| == 4;
      PrefixSlice(q, clause, o + len, o + len + 4);
      assert clause[o + len..o + len + 4] == " OR ";
    }
  }

  // ---------------------------------------------------------------------------
  // The sweep over all stocks
  // ---------------------------------------------------------------------------

  /** The combined per-stock results and per-stock day counts. */
  datatype Store = Store(results: map<string, seq<Tweet>>, counts: map<string, seq<DayCount>>)

  /** A timestamp exception that ended the sweep: which stock, at which position. */
  datatype StockFailure = StockFailure(index: nat, stock: string, error: DateKeyError)

  /** What the sweep leaves: the combined maps, and the exception that stopped it, if any. */
  datatype Outcome = Outcome(store: Store, failure: Option<StockFailure>)

  /** Storing one stock's search: its results and their day counts replace any earlier entry. */
  function StoreSearch(store: Store, stock: string, tweets: seq<Tweet>): Store
  {
    Store(store.results[stock := tweets], store.counts[stock := CountPerDay(DateKeys(tweets))])
  }

  /**
   * The sweep after its first `n` stocks, `Extract(responses[i])` being what the
   * extraction loop made of the response to the search for `stocks[i]`: each
   * stock's results and counts are stored in turn; the first search that
   * raised stops the sweep before its stock is stored.
   */
  function Campaign(stocks: seq<string>, responses: seq<seq<Status>>, store: Store, n: nat): Outcome
    requires n <= |stocks| == |responses|
  {
    if n == 0 then Outcome(store, None)
    else
      var before := Campaign(stocks, responses, store, n - 1);
      if before.failure.Some? then before
      else match Extract(responses[n - 1]).failure
        case Some(e) => Outcome(before.store, Some(StockFailure(n - 1, stocks[n - 1], e)))
        case None => Outcome(StoreSearch(before.store, stocks[n - 1], Extract(responses[n - 1]).tweets), None)
  }

  /** Once the sweep has stopped, the stocks after that change nothing. */
  lemma {:induction false} CampaignStopped(stocks: seq<string>, responses: seq<seq<Status>>, store: Store, k: nat, m: nat)
    requires k <= m <= |stocks| == |responses|
    requires Campaign(stocks, responses, store, k).failure.Some?
    ensures Campaign(stocks, responses, store, m) == Campaign(stocks, responses, store, k)
    decreases m
  {
    if k < m {
      CampaignStopped(stocks, responses, store, k, m - 1);
    }
  }

  /**
   * A sweep that stopped did so at a search that raised, with that search's
   * exception, and no search before it raised; the maps then hold what the
   * sweep over the stocks before it stored.
   */
  lemma {:induction false} CampaignFailureAt(stocks: seq<string>, responses: seq<seq<Status>>, store: Store, n: nat)
    requires n <= |stocks| == |responses|
    requires Campaign(stocks, responses, store, n).failure.Some?
    ensures var out := Campaign(stocks, responses, store, n);
      var f := out.failure.value;
      f.index < n && f.stock == stocks[f.index] &&
      Extract(responses[f.index]).failure == Some(f.error) &&
      (forall j :: 0 <= j < f.index ==> Extract(responses[j]).failure.None?) &&
      out.store == Campaign(stocks, responses, store, f.index).store
  {
    if Campaign(stocks, responses, store, n - 1).failure.Some? {
      CampaignFailureAt(stocks, responses, store, n - 1);
    } else {
      CampaignSound(stocks, responses, store, n - 1);
    }
  }

  /** A sweep that has not stopped met no search that raised. */
  lemma {:induction false} CampaignSound(stocks: seq<string>, responses: seq<seq<Status>>, store: Store, n: nat)
    requires n <= |stocks| == |responses|
    requires Campaign(stocks, responses, store, n).failure.None?
    ensures forall j :: 0 <= j < n ==> Extract(responses[j]).failure.None?
  {
    if n > 0 {
      CampaignSound(stocks, responses, store, n - 1);
    }
  }

  /** The sweep completes exactly when no search raised. */
  lemma CampaignCompletes(stocks: seq<string>, responses: seq<seq<Status>>, store: Store, n: nat)
    requires n <= |stocks| == |responses|
    ensures Campaign(stocks, responses, store, n).failure.None? <==>
      forall j :: 0 <= j < n ==> Extract(responses[j]).failure.None?
  {
    if Campaign(stocks, responses, store, n).failure.Some? {
      CampaignFailureAt(stocks, responses, store, n);
    } else {
      CampaignSound(stocks, responses, store, n);
    }
  }

  /**
   * A completed sweep adds an entry for every stock swept, in both maps, and
   * no other entry.
   */
  lemma {:induction false} CampaignKeys(stocks: seq<string>, responses: seq<seq<Status>>, store: Store, n: nat)
    requires n <= |stocks| == |responses|
    requires Campaign(stocks, responses, store, n).failure.None?
    ensures var out := Campaign(stocks, responses, store, n).store;
      forall s :: (s in out.results <==> s in store.results || s in stocks[..n]) &&
                  (s in out.counts <==> s in store.counts || s in stocks[..n])
  {
    if n > 0 {
      CampaignKeys(stocks, responses, store, n - 1);
      forall s
        ensures s in stocks[..n] <==> s in stocks[..n - 1] || s == stocks[n - 1]
      {
        assert stocks[..n] == stocks[..n - 1] + [stocks[n - 1]];
      }
    }
  }

  /**
   * A completed sweep stores, for a stock, what the search at its last
   * position in the list returned: a later search for the same name
   * overwrites an earlier one.
   */
  lemma {:induction false} CampaignLastWins(stocks: seq<string>, responses: seq<seq<Status>>, store: Store, n: nat, j: nat)
    requires j < n <= |stocks| == |responses|
    requires Campaign(stocks, responses, store, n).failure.None?
    requires forall k :: j < k < n ==> stocks[k] != stocks[j]
    ensures var out := Campaign(stocks, responses, store, n).store;
      stocks[j] in out.results && stocks[j] in out.counts &&
      out.results[stocks[j]] == Extract(responses[j]).tweets &&
      out.counts[stocks[j]] == CountPerDay(DateKeys(Extract(responses[j]).tweets))
  {
    if j < n - 1 {
      CampaignLastWins(stocks, responses, store, n - 1, j);
    }
  }

  /** A stock that was not swept keeps whatever entries it had, in both maps. */
  lemma {:induction false} CampaignOthersUnchanged(stocks: seq<string>, responses: seq<seq<Status>>, store: Store, n: nat, s: string)
    requires n <= |stocks| == |responses|
    requires forall j :: 0 <= j < n ==> stocks[j] != s
    ensures var out := Campaign(stocks, responses, store, n).store;
      (s in out.results <==> s in store.results) && (s in store.results ==> out.results[s] == store.results[s]) &&
      (s in out.counts <==> s in store.counts) && (s in store.counts ==> out.counts[s] == store.counts[s])
  {
    if n > 0 {
      CampaignOthersUnchanged(stocks, responses, store, n - 1, s);
    }
  }

  /**
   * The combined maps agree: the same stocks in both, and each stock's count
   * list is the per-day count of its stored results.
   */
  ghost predicate Consistent(store: Store)
  {
    && store.results.Keys == store.counts.Keys
    && forall s :: s in store.results ==> store.counts[s] == CountPerDay(DateKeys(store.results[s]))
  }

  /** The sweep keeps the combined maps consistent, whether it completes or stops. */
  lemma {:induction false} CampaignConsistent(stocks: seq<string>, responses: seq<seq<Status>>, store: Store, n: nat)
    requires n <= |stocks| == |responses|
    requires Consistent(store)
    ensures Consistent(Campaign(stocks, responses, store, n).store)
  {
    if n > 0 {
      CampaignConsistent(stocks, responses, store, n - 1);
    }
  }

  /**
   * In consistent maps each stock's day counts add up to its number of stored
   * results, and each day's count is the number of its results on that day.
   */
  lemma StoredCounts(store: Store, s: string)
    requires Consistent(store) && s in store.results
    ensures Total(store.counts[s]) == |store.results[s]|
    ensures forall k :: CountOf(store.counts[s], k) == multiset(DateKeys(store.results[s]))[k]
  {
    CountPerDaySpec(DateKeys(store.results[s]));
  }

  /** A stock whose search returned nothing is stored with no results and no counts. */
  lemma CampaignEmptyResponse(stocks: seq<string>, responses: seq<seq<Status>>, store: Store, n: nat, j: nat)
    requires j < n <= |stocks| == |responses|
    requires Campaign(stocks, responses, store, n).failure.None?
    requires forall k :: j < k < n ==> stocks[k] != stocks[j]
    requires Extract(responses[j]) == Extract([])
    ensures var out := Campaign(stocks, responses, store, n).store;
      stocks[j] in out.results && stocks[j] in out.counts &&
      out.results[stocks[j]] == [] && out.counts[stocks[j]] == []
  {
    CampaignLastWins(stocks, responses, store, n, j);
  }
}
