# Twitter search reader, modelled in Dafny

This project models `python_twitter.py`, a Python 2 module that gathers tweets
through Twitter's search endpoint. Its two classes are modelled.

- `TweetsReader` holds a search list and an exclude list. It forms the query
  string from them using Twitter's advanced-search operators (` OR ` between
  wanted phrases, `-` before excluded ones). For each status of the search
  response it stores a `[date_key, text]` pair: `date_key` is the integer
  `YYYYMMDD` decoded from the status's `created_at` timestamp, and `text` is
  the status text with its non-ASCII characters dropped. It then counts the
  stored results per day, days in ascending order.
- `StockTweetsReader` sweeps a list of stock names through such a reader. For
  each stock it searches for six quoted phrases (`"<stock> "`,
  `"<stock> shares"`, … `"<stock> sell"`). It stores each stock's results and
  per-day counts in two dictionaries keyed by stock name.

The project has these modules:

- `Wrappers` (`wrappers.dfy`): `Option` and `Result`.
- `Text` (`text.dfy`): the Python built-ins the reader relies on. These are
  `sep.join`, `str.split()` with no argument (Python 2.7's Unicode whitespace
  set), `str(k)` and `int(s)`.
- `Query` (`query.dfy`): the search clause, the exclude clause and the full
  query string.
- `DateKey` (`date_key.dfy`): the month table and the timestamp decoder,
  including its three exceptions.
- `Tweets` (`tweets.dfy`): the text sanitiser, the result-extraction loop as
  a function, and the per-day group-by count.
- `StockCampaign` (`stock_campaign.dfy`): the six phrases per stock. It also
  describes what the sweep over all stocks leaves in the two dictionaries, as
  a function of the search responses.
- `Readers` (`readers.dfy`): the two classes. Their fields are the instance
  attributes the code updates in place. Each method's contract ties the new
  state to the functions above.

The network is an input. Each search response is a `seq<Status>` (the
`created_at` and `text` of every status). A sweep takes one response per
stock, in stock-list order.

A timestamp exception (the `IndexError`, `KeyError` or `ValueError` that
`convert_date_str_to_date_key` can raise, which the code does not catch) is
modelled as a returned value. The state the method leaves behind is modelled too: the
results appended before the exception, and the stale day count of the
previous stock.

Three behaviours of the code are worth stating plainly.

- The code has no check for an empty search list. An empty search list gives
  the query `" "` followed by the exclude clause.
- An exception raised while decoding a timestamp leaves
  `iterate_results_for_all_stocks`. The sweep ends at that stock, and that
  stock is not stored.
- A malformed timestamp raises one of three exceptions:
  - `IndexError` for fewer than six fields;
  - `KeyError` for an unknown month;
  - `ValueError` when the year and day glued to the month code are not an
    integer literal.

## Model

| member | source | states |
|---|---|---|
| Text.Join | python_twitter.py:119 | `sep.join(items)`: the items in order with `sep` between neighbours |
| Text.JoinLayout | python_twitter.py:119 | In `sep.join(items)`, item i sits at its offset, exactly one separator follows every item but the last, and the string ends with the last item |
| Text.JoinChars | python_twitter.py:119 | Every character of a join comes from one of the items or from the separator |
| Text.Split | python_twitter.py:147 | `str.split()` with no argument: the maximal runs of non-whitespace characters, Python 2.7's Unicode whitespace set separating them |
| Text.SplitWords | python_twitter.py:147 | Every field `split()` returns is non-empty and holds no whitespace |
| Text.SplitJoin | python_twitter.py:147 | Splitting whitespace-free words joined by single spaces gives the words back |
| Text.Decimal | python_twitter.py:149-150 | `str(k)` for a natural number: its decimal digits, no leading zero |
| Text.DecimalValue | python_twitter.py:149-150 | `str(k)` is a digit string without a leading zero that reads back as k |
| Text.DigitsValueAppend | python_twitter.py:152 | Reading two glued digit strings shifts the first left by the length of the second |
| Text.ParseInt | python_twitter.py:152 | `int(s)` on a whitespace-free string: an optional sign and ASCII digits, otherwise `None` for the ValueError |
| Text.ParseIntDigits | python_twitter.py:152 | `int` accepts a non-empty digit string with its decimal value, and rejects the empty string and any unsigned string holding a non-digit |
| DateKey.MonthCode | python_twitter.py:149-150 | The month code the code builds: `'0' + str(k)` below 10 and `str(k)` from 10 on |
| DateKey.MonthLookup | python_twitter.py:152 | `month_dict[date_list[1]]`, with `None` standing for the KeyError |
| DateKey.MonthDictIsFormula | python_twitter.py:149-150 | Entry k of `calendar.month_abbr` maps to `'0' + str(k)` below 10 and to `str(k)` from 10 on |
| DateKey.MonthDictKeys | python_twitter.py:149-150 | The month dictionary has a key exactly for each entry of `calendar.month_abbr` |
| DateKey.MonthLookupKeys | python_twitter.py:149-152 | The lookup succeeds exactly for `Jan`..`Dec` and the empty entry 0 |
| DateKey.MonthCodes | python_twitter.py:149-152 | Every month 1..12 looks up to a two-digit code that reads as its number |
| DateKey.ToDateKey | python_twitter.py:140-152 | Splits the timestamp on whitespace and decodes the fields |
| DateKey.FieldsToDateKey | python_twitter.py:147-152 | Field 5, the month code of field 1 and field 2 glued together and read with `int`, or the IndexError, KeyError or ValueError the code raises |
| DateKey.ToDateKeyFailures | python_twitter.py:147-152 | IndexError exactly when there are fewer than six fields; KeyError exactly when there are six or more and field 1 is not `Jan`..`Dec`; ValueError only when the month is known |
| DateKey.ToDateKeyValue | python_twitter.py:147-152 | For a digit-only year and day the key is year, two-digit month and day written side by side; weekday, time and offset are ignored |
| DateKey.ToDateKeyYearMonthDay | python_twitter.py:140-152 | With a four-digit year and a two-digit day the key is year * 10000 + month * 100 + day |
| DateKey.KeyOrderIsChronological | python_twitter.py:149-152 | With two-digit days, numeric key order is calendar order |
| DateKey.ToDateKeyExample | python_twitter.py:143-145 | `'Mon Sep 29 07:00:10 +0000 2014'` decodes to 20140929 |
| DateKey.ToDateKeyJanuary | python_twitter.py:149 | A January timestamp gets the zero-padded month `01` |
| DateKey.ToDateKeyDecember | python_twitter.py:150 | A December timestamp gets the unpadded month `12` |
| Query.SearchClause | python_twitter.py:112-119 | The wanted phrases joined by ` OR ` |
| Query.ExcludeClause | python_twitter.py:121-131 | `''` for no phrases, otherwise `-` followed by the phrases joined by ` -` |
| Query.SearchQuery | python_twitter.py:107-110 | The search clause, one space, then the exclude clause |
| Query.SearchClauseShape | python_twitter.py:112-119 | The search clause is `''` for no phrases and the phrase itself for one. Each phrase appears verbatim at its offset, followed by ` OR ` unless it is the last, and the clause ends with the last phrase |
| Query.SearchClauseNoQuotes | python_twitter.py:112-119 | Every character of the search clause comes from a phrase or from ` OR `, so no quotes are added: a double quote in the clause was already in a phrase |
| Query.ExcludeClauseIsNegatedWords | python_twitter.py:121-131 | The exclude clause is every phrase prefixed with `-`, separated by single spaces; `''` for no phrases |
| Query.SearchQueryShape | python_twitter.py:107-110 | The query is the search clause, one space, then the negated phrases; with nothing excluded it ends in that space |
| Query.SearchQueryTrailingSpace | python_twitter.py:107-119 | `['A','B']` with nothing excluded gives `'A OR B '` |
| Query.SearchQueryExcluding | python_twitter.py:107-131 | `['A']` excluding `['C','D']` gives `'A -C -D'` |
| Query.SearchQueryDemonstration | python_twitter.py:284-288 | The demonstration lists give `'apple OR meat OR kiwi -orange -kok'` |
| Tweets.Sanitize | python_twitter.py:169 | The text with every non-ASCII character dropped, the rest kept in order |
| Tweets.DecodeStatus | python_twitter.py:168-169 | One status's `[date_key, text]` pair, or the exception its timestamp raises |
| Tweets.Extract | python_twitter.py:159-170 | What the result loop leaves for a whole response: the pairs appended and the exception that stopped it, if any |
| Tweets.SanitizeAscii | python_twitter.py:169 | Sanitised text is all ASCII, and ASCII text passes unchanged |
| Tweets.SanitizeCounts | python_twitter.py:169 | Sanitising keeps every ASCII character as often as it occurs and drops every other character |
| Tweets.SanitizeAppend | python_twitter.py:169 | Sanitising goes character by character in order: one character is kept exactly when it is ASCII, and sanitising a concatenation concatenates the sanitised parts |
| Tweets.SanitizeIdempotent | python_twitter.py:169 | Sanitising twice is sanitising once |
| Tweets.ExtractFirst | python_twitter.py:166-170 | The result loop after its first n statuses: the pairs appended so far and the exception that stopped it, if any |
| Tweets.ExtractStopped | python_twitter.py:166-170 | After a timestamp raised, the later statuses change nothing |
| Tweets.ExtractFirstSpec | python_twitter.py:166-170 | After n steps the pairs are the decodings of a prefix of the statuses, in order; the loop is still running exactly when all n decoded, otherwise it stopped at the first failing status with its exception |
| Tweets.ExtractSpec | python_twitter.py:159-170 | The same for the whole response: one pair per status in status order up to the first failing timestamp, whose exception is the outcome |
| Tweets.ExtractAllDecoded | python_twitter.py:166-170 | When every timestamp decodes, the results are exactly one decoded pair per status, in order, and nothing is raised |
| Tweets.CountPerDay | python_twitter.py:189-197 | The group-by-size of the day keys: `(day, count)` rows in ascending day order |
| Tweets.DateKeys | python_twitter.py:189 | `[n[0] for n in self.search_results]`: the day key of each result, in order |
| Tweets.Tally | python_twitter.py:191 | One step of the group-by count: one more occurrence of a day key added to the ascending rows |
| Tweets.TallyCount | python_twitter.py:191 | Counting one more key adds one to its count and leaves the other counts alone |
| Tweets.TallyOrder | python_twitter.py:191 | Counting one more key keeps the rows strictly ascending with positive counts |
| Tweets.CountPerDaySpec | python_twitter.py:189-197 | The day counts are strictly ascending by day and positive, have a row for each distinct day, give each day its number of occurrences, and add up to the number of results |
| Tweets.CountPerDayRows | python_twitter.py:189-197 | Row by row: each row's day occurs in the results, its count is its number of occurrences (at least one), and every day has a row |
| Tweets.CountPerDayExample | python_twitter.py:189-192 | Three results over two days give two rows in day order, with counts 2 and 1 |
| StockCampaign.StockPhrases | python_twitter.py:238 | One quoted phrase `"<stock> <modifier>"` per modifier, in modifier order |
| StockCampaign.StockPhraseParts | python_twitter.py:238 | Each phrase is a double quote, the stock name, a space, the modifier and a closing double quote |
| StockCampaign.StockPhrasesDistinct | python_twitter.py:218-238 | The six phrases are pairwise different, and the first is `'"<stock> "'` |
| StockCampaign.StockQueryShape | python_twitter.py:234-239 | A stock's query holds its six phrases in modifier order with ` OR ` between neighbours, and with nothing excluded it is that clause and one space |
| StockCampaign.StoreSearch | python_twitter.py:252-257 | Storing one stock: its results and their day counts replace any earlier entry under its name |
| StockCampaign.Campaign | python_twitter.py:259-265 | The sweep after its first n stocks: each stock's search stored in turn; the first search that raises stops the sweep before its stock is stored |
| StockCampaign.CampaignStopped | python_twitter.py:262-264 | Once a search has raised, the later stocks change nothing |
| StockCampaign.CampaignFailureAt | python_twitter.py:259-265 | A sweep that stopped did so at the first search that raised, with its exception, and the maps hold what the stocks before it stored |
| StockCampaign.CampaignCompletes | python_twitter.py:259-265 | The sweep completes exactly when no search raised |
| StockCampaign.CampaignKeys | python_twitter.py:252-265 | A completed sweep adds an entry for every stock in the list, in both maps, and no other entry |
| StockCampaign.CampaignLastWins | python_twitter.py:252-265 | A stock's entries hold the results and day counts of the search at its last position in the list |
| StockCampaign.CampaignOthersUnchanged | python_twitter.py:252-265 | A stock not in the swept part of the list keeps its entries, or its absence, in both maps |
| StockCampaign.CampaignConsistent | python_twitter.py:249-257 | The sweep keeps the two maps on the same keys, each count list being the day count of that stock's results |
| StockCampaign.StoredCounts | python_twitter.py:249-257 | In consistent maps a stock's day counts add up to its number of results and count each day's results |
| StockCampaign.CampaignEmptyResponse | python_twitter.py:159-164 | A stock whose search returned no statuses is stored with no results and no counts |
| Readers.TweetsReader.constructor | python_twitter.py:49-81 | The lists are stored, the query is formed from them, and results and counts start empty |
| Readers.TweetsReader.SetSearchList | python_twitter.py:93-98 | Only the search list changes; the query stays as it was |
| Readers.TweetsReader.SetExcludeList | python_twitter.py:100-105 | Only the exclude list changes; the query stays as it was |
| Readers.TweetsReader.FormSearchQuery | python_twitter.py:107-110 | The query becomes the query of the current lists, and nothing else changes |
| Readers.TweetsReader.PerformTwitterSearch | python_twitter.py:154-170 | The results become what the extraction loop makes of the response, and the exception that stopped it is returned |
| Readers.TweetsReader.CountNumTweetsPerDay | python_twitter.py:179-197 | The day counts become the group-by count of the current results' day keys |
| Readers.StockTweetsReader.constructor | python_twitter.py:212-225 | A fresh reader with empty lists and no results, the stock list stored, the target stock `''` and both maps empty |
| Readers.StockTweetsReader.SetTargetStock | python_twitter.py:227-232 | Only the target stock changes |
| Readers.StockTweetsReader.SetSearchListAndFormSearchQuery | python_twitter.py:234-239 | The search list becomes the target stock's six phrases and the query is re-formed from them |
| Readers.StockTweetsReader.GetTweetsForSingleStock | python_twitter.py:241-250 | The reader holds the stock's phrases, its query and the extracted results. If nothing was raised, the counts are re-made and both maps store the stock's entries. Otherwise the exception is returned and counts and maps are as they were |
| Readers.StockTweetsReader.StoreResults | python_twitter.py:252-257 | Both maps get the reader's current results and counts under the target stock, and the other keys are unchanged |
| Readers.StockTweetsReader.IterateResultsForAllStocks | python_twitter.py:259-265 | The maps and the outcome are those of the sweep function. The reader holds the last search made: the last stock's on completion, or the raising stock's partial results beside the previous stock's counts. An empty list changes nothing |

## Left out

- Reading the key and token files and building the Twython client (python_twitter.py:61-66, 83-91) are file I/O and a foreign library.
- The search call itself (python_twitter.py:160-161) is not modelled. Its response is an input sequence of statuses, and a sweep takes one response per stock.
- A search call that raises is not modelled: a Twython error (rate limit, authentication, network) or a `KeyError` for a response without `"statuses"` (python_twitter.py:160-161). The code would then leave `search_results` already reset to `[]` (python_twitter.py:159), store nothing for that stock, keep the previous stock's day counts, and end the sweep. The model has no such path, because every response is a given sequence of statuses.
- A sweep requires as many responses as stocks. Each response is consumed once, when its stock is searched.
- All printing is not modelled: python_twitter.py:163, 172-177, 193-195, 244, 246, 265 and 267-274. This includes `print_results` and `print_full_results`. Printing is a console side effect only.
- The `__main__` block and its CSV read of the stock list (python_twitter.py:276-315) are demonstration code and I/O. Only the query of the first demonstration appears, as a lemma.
- The pandas DataFrame mechanics (python_twitter.py:190-192) are not modelled. The group-by-size result is defined directly by `CountPerDay`, which returns `(day, count)` rows in ascending day order.
- The attributes `lang`, `result_type` and `result_count`, and `set_num_result_to_retrieve` (python_twitter.py:70-72, 133-138), are left out. No modelled logic reads them: the count is only passed to the search call.
- `int()` in Python 2 also accepts Unicode decimal digits other than `0`–`9`. `ParseInt` accepts ASCII digits only.
- `calendar.month_abbr` depends on the process locale. The month table is written out for the English (C) locale.
- The default argument `exclude_list = []` of `TweetsReader.__init__` (python_twitter.py:49) is not modelled: callers of the constructor pass `[]` explicitly.
- `StockTweetsReader` inherits from `TweetsReader` in the code. Here it holds one (`reader`) and drives it through the same methods: the inherited state is the held reader's fields.
- Stored results are values. The code stores references to the reader's lists, but `perform_twitter_search` and `count_num_tweets_per_day` rebind those attributes to new lists rather than mutating the stored ones, so no stored entry changes afterwards.
- The console's own failure modes are not modelled, such as a `UnicodeEncodeError` when printing a non-ASCII stock name.
