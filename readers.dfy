/**
 * The two reader objects: a tweet reader that holds a search, runs it and
 * keeps its results and per-day counts, and a stock reader that sweeps a list
 * of stock names through it and collects the results per stock.
 */
module Readers {
  import opened Wrappers
  import opened Query
  import opened DateKey
  import opened Tweets
  import opened StockCampaign

  /** Reads tweets for one search and counts them per day. */
  class TweetsReader {
    /** Phrases of which a tweet must match at least one. */
    var searchList: seq<string>
    /** Words a tweet must not contain. */
    var excludeList: seq<string>
    /** The query string sent to the search service. */
    var searchQuery: string
    /** The `[date_key, text]` pairs of the last search, in response order. */
    var searchResults: seq<Tweet>
    /** The per-day counts of the last counting. */
    var tweetCountPerSearch: seq<DayCount>

    /** A reader for the given lists; the query is formed at once, no results yet. */
    constructor (searchList: seq<string>, excludeList: seq<string>)
      ensures this.searchList == searchList && this.excludeList == excludeList
      ensures searchQuery == SearchQuery(searchList, excludeList)
      ensures searchResults == [] && tweetCountPerSearch == []
    {
      this.searchList := searchList;
      this.excludeList := excludeList;
      searchResults := [];
      tweetCountPerSearch := [];
      new;
      FormSearchQuery();
    }

    /** Replaces the search list; the query is not re-formed. */
    method SetSearchList(searchList: seq<string>)
      modifies this`searchList
      ensures this.searchList == searchList
    {
      this.searchList := searchList;
    }

    /** Replaces the exclude list; the query is not re-formed. */
    method SetExcludeList(excludeList: seq<string>)
      modifies this`excludeList
      ensures this.excludeList == excludeList
    {
      this.excludeList := excludeList;
    }

    /** Forms the query from the current lists. */
    method FormSearchQuery()
      modifies this`searchQuery
      ensures searchQuery == SearchQuery(searchList, excludeList)
    {
      searchQuery := SearchClause(searchList) + " " + ExcludeClause(excludeList);
    }

    /**
     * Runs the search whose response is `statuses`: the results are reset,
     * then each status's day key and sanitised text are appended in order. A
     * timestamp that cannot be converted raises, leaving the pairs appended
     * before it; that exception is returned as `failure`.
     */
    method PerformTwitterSearch(statuses: seq<Status>) returns (failure: Option<DateKeyError>)
      modifies this`searchResults
      ensures searchResults == Extract(statuses).tweets
      ensures failure == Extract(statuses).failure
    {
      searchResults := [];
      if statuses == [] {
        return None;
      }
      failure := None;
      var i := 0;
      while i < |statuses| && failure.None?
        invariant 0 <= i <= |statuses|
        invariant ExtractFirst(statuses, i) == Extracted(searchResults, failure)
      {
        match ToDateKey(statuses[i].createdAt) {
          case Failure(e) =>
            failure := Some(e);
          case Success(dateKey) =>
            searchResults := searchResults + [Tweet(dateKey, Sanitize(statuses[i].text))];
        }
        i := i + 1;
      }
      if failure.Some? {
        ExtractStopped(statuses, i, |statuses|);
      }
    }

    /** Counts the current results per day, days in ascending order. */
    method CountNumTweetsPerDay()
      modifies this`tweetCountPerSearch
      ensures tweetCountPerSearch == CountPerDay(DateKeys(searchResults))
    {
      tweetCountPerSearch := [];
      if searchResults == [] {
        return;
      }
      var dayInfo := DateKeys(searchResults);
      tweetCountPerSearch := CountPerDay(dayInfo);
    }
  }

  /** Sweeps a list of stock names through a tweet reader and keeps each stock's results. */
  class StockTweetsReader {
    /** The tweet reader doing each stock's search. */
    const reader: TweetsReader
    /** The stock names to sweep, in order. */
    const stocklist: seq<string>
    /** The stock being searched. */
    var targetStock: string
    /** The search results stored per stock name. */
    var combinedTweetResults: map<string, seq<Tweet>>
    /** The per-day counts stored per stock name. */
    var combinedTweetCount: map<string, seq<DayCount>>

    /** The two combined maps together. */
    function Stored(): Store
      reads this
    {
      Store(combinedTweetResults, combinedTweetCount)
    }

    /**
     * The reader holds the search for `stock` that extracted `search`: the
     * stock's phrases, the query formed from them and the extracted results.
     */
    ghost predicate HoldsSearch(stock: string, search: Extracted)
      reads this`targetStock, reader`searchList, reader`excludeList, reader`searchQuery, reader`searchResults
    {
      && targetStock == stock
      && reader.searchList == StockPhrases(stock)
      && reader.searchQuery == SearchQuery(reader.searchList, reader.excludeList)
      && reader.searchResults == search.tweets
    }

    /** A stock reader for `stocklist`, over a tweet reader with empty lists; nothing stored yet. */
    constructor (stocklist: seq<string>)
      ensures fresh(reader)
      ensures reader.searchList == [] && reader.excludeList == []
      ensures reader.searchQuery == SearchQuery([], [])
      ensures reader.searchResults == [] && reader.tweetCountPerSearch == []
      ensures this.stocklist == stocklist && targetStock == ""
      ensures combinedTweetResults == map[] && combinedTweetCount == map[]
    {
      reader := new TweetsReader([], []);
      this.stocklist := stocklist;
      targetStock := "";
      combinedTweetResults := map[];
      combinedTweetCount := map[];
    }

    /** Chooses the stock to search next. */
    method SetTargetStock(stockname: string)
      modifies this`targetStock
      ensures targetStock == stockname
    {
      targetStock := stockname;
    }

    /** Sets the reader's search list to the target stock's phrases and re-forms the query. */
    method SetSearchListAndFormSearchQuery()
      modifies reader`searchList, reader`searchQuery
      ensures reader.searchList == StockPhrases(targetStock)
      ensures reader.searchQuery == SearchQuery(StockPhrases(targetStock), reader.excludeList)
    {
      reader.searchList := StockPhrases(targetStock);
      reader.FormSearchQuery();
    }

    /**
     * Searches for the target stock, `statuses` being the response: the
     * query is formed, the search run, and, unless a timestamp raised, the
     * results counted per day and stored under the stock's name. A raised
     * exception skips counting and storing and is returned as `failure`.
     */
    method GetTweetsForSingleStock(statuses: seq<Status>) returns (failure: Option<DateKeyError>)
      modifies reader`searchList, reader`searchQuery, reader`searchResults, reader`tweetCountPerSearch
      modifies this`combinedTweetResults, this`combinedTweetCount
      ensures HoldsSearch(targetStock, Extract(statuses))
      ensures failure == Extract(statuses).failure
      ensures failure.None? ==>
        reader.tweetCountPerSearch == CountPerDay(DateKeys(reader.searchResults)) &&
        Stored() == StoreSearch(old(Stored()), targetStock, reader.searchResults)
      ensures failure.Some? ==>
        reader.tweetCountPerSearch == old(reader.tweetCountPerSearch) && Stored() == old(Stored())
    {
      SetSearchListAndFormSearchQuery();
      failure := reader.PerformTwitterSearch(statuses);
      if failure.Some? {
        return;
      }
      reader.CountNumTweetsPerDay();
      StoreResults();
    }

    /** Stores the reader's current results and counts under the target stock, replacing any earlier entry. */
    method StoreResults()
      modifies this`combinedTweetResults, this`combinedTweetCount
      ensures combinedTweetCount == old(combinedTweetCount)[targetStock := reader.tweetCountPerSearch]
      ensures combinedTweetResults == old(combinedTweetResults)[targetStock := reader.searchResults]
    {
      combinedTweetCount := combinedTweetCount[targetStock := reader.tweetCountPerSearch];
      combinedTweetResults := combinedTweetResults[targetStock := reader.searchResults];
    }

    /**
     * Searches every stock of the list in order, `responses[i]` being the
     * response to the search for `stocklist[i]`. The combined maps end as
     * the sweep `Campaign` describes; on a raised exception the sweep stops
     * at that stock, which is returned with the exception, and the reader
     * keeps that stock's partial results beside the counts of the stock
     * before it.
     */
    method IterateResultsForAllStocks(responses: seq<seq<Status>>) returns (failure: Option<StockFailure>)
      requires |responses| == |stocklist|
      modifies this`targetStock, reader`searchList, reader`searchQuery, reader`searchResults, reader`tweetCountPerSearch
      modifies this`combinedTweetResults, this`combinedTweetCount
      ensures Stored() == Campaign(stocklist, responses, old(Stored()), |stocklist|).store
      ensures failure == Campaign(stocklist, responses, old(Stored()), |stocklist|).failure
      ensures failure.None? && |stocklist| > 0 ==>
        HoldsSearch(stocklist[|stocklist| - 1], Extract(responses[|stocklist| - 1])) &&
        reader.tweetCountPerSearch == CountPerDay(DateKeys(reader.searchResults))
      ensures failure.Some? ==>
        var k := failure.value.index;
        k < |stocklist| && HoldsSearch(stocklist[k], Extract(responses[k])) &&
        reader.tweetCountPerSearch == if k == 0 then old(reader.tweetCountPerSearch)
          else CountPerDay(DateKeys(Extract(responses[k - 1]).tweets))
      ensures |stocklist| == 0 ==>
        targetStock == old(targetStock) && reader.searchList == old(reader.searchList) &&
        reader.searchQuery == old(reader.searchQuery) && reader.searchResults == old(reader.searchResults) &&
        reader.tweetCountPerSearch == old(reader.tweetCountPerSearch)
    {
      failure := None;
      if |stocklist| == 0 {
        return;  // the loop over an empty list does nothing
      }
      ghost var start := Stored();
      var i := 0;
      while i < |stocklist| && failure.None?
        invariant 0 <= i <= |stocklist|
        invariant Campaign(stocklist, responses, start, i) == Outcome(Stored(), failure)
        invariant failure.Some? ==> failure.value.index == i - 1
        invariant i > 0 ==> HoldsSearch(stocklist[i - 1], Extract(responses[i - 1]))
        invariant reader.tweetCountPerSearch ==
          if failure.None? && i > 0 then CountPerDay(DateKeys(Extract(responses[i - 1]).tweets))
          else if failure.Some? && i > 1 then CountPerDay(DateKeys(Extract(responses[i - 2]).tweets))
          else old(reader.tweetCountPerSearch)
      {
        SetTargetStock(stocklist[i]);
        var raised := GetTweetsForSingleStock(responses[i]);
        if raised.Some? {
          failure := Some(StockFailure(i, stocklist[i], raised.value));
        }
        i := i + 1;
      }
      if failure.Some? {
        CampaignStopped(stocklist, responses, start, i, |stocklist|);
      }
    }
  }
}
