/**
 * What one search returns, reduced to the reader's own records: a
 * `[date_key, text]` pair per status, and the number of tweets per day.
 */
module Tweets {
  import opened Wrappers
  import opened DateKey

  /** One status of the search response: its `created_at` and `text` fields. */
  datatype Status = Status(createdAt: string, text: string)

  /** One stored search result: the day key and the sanitised text. */
  datatype Tweet = Tweet(dateKey: int, text: string)

  // ---------------------------------------------------------------------------
  // Text sanitising: text.encode(errors='ignore') with the ASCII codec
  // ---------------------------------------------------------------------------

  predicate IsAscii(c: char)
  {
    (c as int) < 128
  }

  predicate AllAscii(s: string)
  {
    forall i :: 0 <= i < |s| ==> IsAscii(s[i])
  }

  /** The text with every character the ASCII codec cannot encode dropped. */
  function Sanitize(text: string): string
  {
    if |text| == 0 then ""
    else if IsAscii(text[0]) then [text[0]] + Sanitize(text[1..])
    else Sanitize(text[1..])
  }

  /** Sanitised text is all ASCII, and ASCII text passes unchanged. */
  lemma {:induction false} SanitizeAscii(text: string)
    ensures AllAscii(Sanitize(text))
    ensures AllAscii(text) ==> Sanitize(text) == text
  {
    if |text| > 0 {
      SanitizeAscii(text[1..]);
    }
  }

  /**
   * Sanitising drops exactly the non-ASCII characters: every ASCII character
   * keeps its number of occurrences, and no other character survives.
   */
  lemma {:induction false} SanitizeCounts(text: string, c: char)
    ensures multiset(Sanitize(text))[c] == if IsAscii(c) then multiset(text)[c] else 0
  {
    if |text| > 0 {
      SanitizeCounts(text[1..], c);
      assert text == [text[0]] + text[1..];
      assert multiset(text) == multiset([text[0]]) + multiset(text[1..]);
    }
  }

  /**
   * Sanitising works character by character, in order: a one-character text
   * is kept exactly when it is ASCII, and the sanitised concatenation of two
   * texts is the concatenation of their sanitised forms.
   */
  lemma {:induction false} SanitizeAppend(a: string, b: string)
    ensures |a| == 1 ==> Sanitize(a) == if IsAscii(a[0]) then a else ""
    ensures Sanitize(a + b) == Sanitize(a) + Sanitize(b)
  {
    if |a| == 0 {
      assert a + b == b;
    } else {
      assert (a + b)[1..] == a[1..] + b;
      SanitizeAppend(a[1..], b);
      if |a| == 1 {
        assert a[1..] == "";
      }
    }
  }

  /** Sanitising is idempotent. */
  lemma SanitizeIdempotent(text: string)
    ensures Sanitize(Sanitize(text)) == Sanitize(text)
  {
    SanitizeAscii(text);
    SanitizeAscii(Sanitize(text));
  }

  // ---------------------------------------------------------------------------
  // Result extraction: the loop of perform_twitter_search
  // ---------------------------------------------------------------------------

  /** One status as the reader stores it, or the exception its timestamp raises. */
  function DecodeStatus(status: Status): Result<Tweet, DateKeyError>
  {
    match ToDateKey(status.createdAt)
    case Failure(e) => Failure(e)
    case Success(key) => Success(Tweet(key, Sanitize(status.text)))
  }

  /**
   * What the extraction loop leaves behind: the pairs appended so far, and the
   * exception that stopped it, if one did.
   */
  datatype Extracted = Extracted(tweets: seq<Tweet>, failure: Option<DateKeyError>)

  /**
   * The extraction loop after its first `n` statuses: each status is decoded
   * and appended in turn; the first one whose timestamp fails stops the loop
   * and leaves the pairs of the statuses before it.
   */
  function ExtractFirst(statuses: seq<Status>, n: nat): Extracted
    requires n <= |statuses|
  {
    if n == 0 then Extracted([], None)
    else
      var done := ExtractFirst(statuses, n - 1);
      if done.failure.Some? then done
      else match DecodeStatus(statuses[n - 1])
        case Failure(e) => Extracted(done.tweets, Some(e))
        case Success(t) => Extracted(done.tweets + [t], None)
  }

  /** The extraction loop run over all of `statuses`. */
  function Extract(statuses: seq<Status>): Extracted
  {
    ExtractFirst(statuses, |statuses|)
  }

  /** Once the loop has stopped, the statuses after that change nothing. */
  lemma {:induction false} ExtractStopped(statuses: seq<Status>, k: nat, m: nat)
    requires k <= m <= |statuses|
    requires ExtractFirst(statuses, k).failure.Some?
    ensures ExtractFirst(statuses, m) == ExtractFirst(statuses, k)
    decreases m
  {
    if k < m {
      ExtractStopped(statuses, k, m - 1);
    }
  }

  /**
   * The first `n` steps of the loop, described without the loop: the pairs
   * are the decodings of a prefix of the statuses, in status order; the loop
   * has not stopped exactly when all `n` statuses decoded, and otherwise it
   * stopped at the first that did not, with that status's exception.
   */
  lemma {:induction false} ExtractFirstSpec(statuses: seq<Status>, n: nat)
    requires n <= |statuses|
    ensures var r := ExtractFirst(statuses, n);
      |r.tweets| <= n &&
      (forall i :: 0 <= i < |r.tweets| ==> DecodeStatus(statuses[i]) == Success(r.tweets[i])) &&
      (r.failure.None? <==> |r.tweets| == n) &&
      (r.failure.Some? ==> DecodeStatus(statuses[|r.tweets|]) == Failure(r.failure.value))
  {
    if n > 0 {
      ExtractFirstSpec(statuses, n - 1);
      var done, r := ExtractFirst(statuses, n - 1), ExtractFirst(statuses, n);
      if done.failure.None? && DecodeStatus(statuses[n - 1]).Success? {
        assert r.tweets == done.tweets + [DecodeStatus(statuses[n - 1]).value];
        forall i | 0 <= i < |r.tweets|
          ensures DecodeStatus(statuses[i]) == Success(r.tweets[i])
        {
          if i < n - 1 {
            assert r.tweets[i] == done.tweets[i];
          }
        }
      }
    }
  }

  /**
   * The extraction result, described without the loop: the pairs are the
   * decodings of a prefix of the statuses, in status order; the loop completes
   * exactly when every status decodes, and otherwise stops at the first status
   * that does not, with that status's exception.
   */
  lemma ExtractSpec(statuses: seq<Status>)
    ensures var r := Extract(statuses);
      |r.tweets| <= |statuses| &&
      (forall i :: 0 <= i < |r.tweets| ==> DecodeStatus(statuses[i]) == Success(r.tweets[i])) &&
      (r.failure.None? <==> |r.tweets| == |statuses|) &&
      (r.failure.Some? ==> DecodeStatus(statuses[|r.tweets|]) == Failure(r.failure.value))
  {
    ExtractFirstSpec(statuses, |statuses|);
  }

  /** When every status decodes, the loop stores exactly the decoding of each status, in order. */
  lemma ExtractAllDecoded(statuses: seq<Status>)
    requires forall i :: 0 <= i < |statuses| ==> DecodeStatus(statuses[i]).Success?
    ensures Extract(statuses).failure == None
    ensures |Extract(statuses).tweets| == |statuses|
    ensures forall i :: 0 <= i < |statuses| ==>
      Extract(statuses).tweets[i] == DecodeStatus(statuses[i]).value
  {
    ExtractSpec(statuses);
  }

  /** The day keys of the stored results, in result order. */
  function DateKeys(tweets: seq<Tweet>): seq<int>
  {
    seq(|tweets|, i requires 0 <= i < |tweets| => tweets[i].dateKey)
  }

  // ---------------------------------------------------------------------------
  // Per-day count: the group-by-size of count_num_tweets_per_day
  // ---------------------------------------------------------------------------

  /** One row of the per-day count: a day key and how many results carry it. */
  datatype DayCount = DayCount(dateKey: int, count: int)

  /** Adds one occurrence of `key` to a count list kept in ascending key order. */
  function Tally(counts: seq<DayCount>, key: int): seq<DayCount>
  {
    if |counts| == 0 then [DayCount(key, 1)]
    else if key < counts[0].dateKey then [DayCount(key, 1)] + counts
    else if key == counts[0].dateKey then [DayCount(key, counts[0].count + 1)] + counts[1..]
    else [counts[0]] + Tally(counts[1..], key)
  }

  /**
   * Grouping day keys and counting the group sizes, groups in ascending key
   * order (the default sorting of a pandas group-by).
   */
  function CountPerDay(keys: seq<int>): seq<DayCount>
  {
    if |keys| == 0 then []
    else Tally(CountPerDay(keys[..|keys| - 1]), keys[|keys| - 1])
  }

  ghost predicate StrictlyAscending(counts: seq<DayCount>)
  {
    forall i, j :: 0 <= i < j < |counts| ==> counts[i].dateKey < counts[j].dateKey
  }

  ghost predicate Positive(counts: seq<DayCount>)
  {
    forall i :: 0 <= i < |counts| ==> counts[i].count >= 1
  }

  /** The day keys that have a row. */
  function Dates(counts: seq<DayCount>): set<int>
  {
    if |counts| == 0 then {} else {counts[0].dateKey} + Dates(counts[1..])
  }

  /** The count a list gives for `key`: that of its first row for `key`, or 0. */
  function CountOf(counts: seq<DayCount>, key: int): int
  {
    if |counts| == 0 then 0
    else if counts[0].dateKey == key then counts[0].count
    else CountOf(counts[1..], key)
  }

  /** The sum of the counts of all rows. */
  function Total(counts: seq<DayCount>): int
  {
    if |counts| == 0 then 0 else counts[0].count + Total(counts[1..])
  }

  /** Every row's key is among the dates. */
  lemma {:induction false} DatesAt(counts: seq<DayCount>, i: nat)
    requires i < |counts|
    ensures counts[i].dateKey in Dates(counts)
  {
    if i > 0 {
      DatesAt(counts[1..], i - 1);
    }
  }

  /** Every date has a row. */
  lemma {:induction false} DatesHaveRows(counts: seq<DayCount>, key: int)
    requires key in Dates(counts)
    ensures exists i :: 0 <= i < |counts| && counts[i].dateKey == key
  {
    if counts[0].dateKey != key {
      DatesHaveRows(counts[1..], key);
      var i :| 0 <= i < |counts[1..]| && counts[1..][i].dateKey == key;
      assert counts[i + 1].dateKey == key;
    }
  }

  /** A bound on every row's key is a bound on every date. */
  lemma {:induction false} DatesAbove(counts: seq<DayCount>, lo: int)
    requires forall i :: 0 <= i < |counts| ==> lo < counts[i].dateKey
    ensures forall k :: k in Dates(counts) ==> lo < k
  {
    if |counts| > 0 {
      DatesAbove(counts[1..], lo);
    }
  }

  /** A key without a row counts zero. */
  lemma {:induction false} CountOfAbsent(counts: seq<DayCount>, key: int)
    requires key !in Dates(counts)
    ensures CountOf(counts, key) == 0
  {
    if |counts| > 0 {
      CountOfAbsent(counts[1..], key);
    }
  }

  /** In an ascending list each row is the first for its key, so its count is the count of its key. */
  lemma {:induction false} CountOfRow(counts: seq<DayCount>, i: nat)
    requires StrictlyAscending(counts) && i < |counts|
    ensures CountOf(counts, counts[i].dateKey) == counts[i].count
  {
    if i > 0 {
      CountOfRow(counts[1..], i - 1);
    }
  }

  /** Tallying a key adds it to the dates. */
  lemma {:induction false} TallyDates(counts: seq<DayCount>, key: int)
    ensures Dates(Tally(counts, key)) == Dates(counts) + {key}
  {
    if |counts| > 0 && key > counts[0].dateKey {
      TallyDates(counts[1..], key);
      assert Tally(counts, key)[1..] == Tally(counts[1..], key);
    } else if |counts| > 0 && key < counts[0].dateKey {
      assert Tally(counts, key)[1..] == counts;
    } else if |counts| > 0 {
      assert Tally(counts, key)[1..] == counts[1..];
    }
  }

  /** Tallying a key adds one to the total. */
  lemma {:induction false} TallyTotal(counts: seq<DayCount>, key: int)
    ensures Total(Tally(counts, key)) == Total(counts) + 1
  {
    if |counts| > 0 && key > counts[0].dateKey {
      TallyTotal(counts[1..], key);
      assert Tally(counts, key)[1..] == Tally(counts[1..], key);
    } else if |counts| > 0 && key < counts[0].dateKey {
      assert Tally(counts, key)[1..] == counts;
    } else if |counts| > 0 {
      assert Tally(counts, key)[1..] == counts[1..];
    }
  }

  /** Tallying a key adds one to its count and leaves every other count as it was. */
  lemma {:induction false} TallyCount(counts: seq<DayCount>, key: int, k: int)
    requires StrictlyAscending(counts)
    ensures CountOf(Tally(counts, key), k) == CountOf(counts, k) + (if k == key then 1 else 0)
  {
    if |counts| > 0 && key > counts[0].dateKey {
      TallyCount(counts[1..], key, k);
      assert Tally(counts, key)[1..] == Tally(counts[1..], key);
    } else if |counts| > 0 && key < counts[0].dateKey {
      assert Tally(counts, key)[1..] == counts;
      if k == key {
        DatesAbove(counts, key);
        CountOfAbsent(counts, key);
      }
    } else if |counts| > 0 {
      assert Tally(counts, key)[1..] == counts[1..];
    }
  }

  /** Tallying keeps the rows strictly ascending by key, with positive counts. */
  lemma {:induction false} TallyOrder(counts: seq<DayCount>, key: int)
    requires StrictlyAscending(counts) && Positive(counts)
    ensures StrictlyAscending(Tally(counts, key)) && Positive(Tally(counts, key))
  {
    var r := Tally(counts, key);
    if |counts| > 0 && key > counts[0].dateKey {
      var rest := counts[1..];
      TallyOrder(rest, key);
      assert r[1..] == Tally(rest, key);
      DatesAbove(rest, counts[0].dateKey);
      TallyDates(rest, key);
      forall j | 0 < j < |r|
        ensures counts[0].dateKey < r[j].dateKey
      {
        DatesAt(Tally(rest, key), j - 1);
      }
    } else if |counts| > 0 && key < counts[0].dateKey {
      assert r[1..] == counts;
    } else if |counts| > 0 {
      assert r[1..] == counts[1..];
    }
  }

  /**
   * The group-by count of `keys`: rows strictly ascending by key, one row per
   * distinct key, each row's count the number of times its key occurs, and
   * the counts adding up to the number of keys.
   */
  lemma {:induction false} CountPerDaySpec(keys: seq<int>)
    ensures StrictlyAscending(CountPerDay(keys)) && Positive(CountPerDay(keys))
    ensures Dates(CountPerDay(keys)) == set k | k in keys
    ensures forall k :: CountOf(CountPerDay(keys), k) == multiset(keys)[k]
    ensures Total(CountPerDay(keys)) == |keys|
  {
    if |keys| > 0 {
      var init, last := keys[..|keys| - 1], keys[|keys| - 1];
      var before := CountPerDay(init);
      CountPerDaySpec(init);
      assert CountPerDay(keys) == Tally(before, last);
      assert keys == init + [last];
      TallyOrder(before, last);
      TallyDates(before, last);
      TallyTotal(before, last);
      assert (set k | k in keys) == (set k | k in init) + {last};
      assert multiset(keys) == multiset(init) + multiset{last};
      forall k
        ensures CountOf(CountPerDay(keys), k) == multiset(keys)[k]
      {
        TallyCount(before, last, k);
      }
    }
  }

  /**
   * Row by row: every row's key is one of the keys and its count is the
   * number of times that key occurs (at least one), every key has a row, and
   * the rows are in strictly ascending key order.
   */
  lemma CountPerDayRows(keys: seq<int>)
    ensures StrictlyAscending(CountPerDay(keys))
    ensures forall i :: 0 <= i < |CountPerDay(keys)| ==>
      CountPerDay(keys)[i].dateKey in keys &&
      CountPerDay(keys)[i].count == multiset(keys)[CountPerDay(keys)[i].dateKey] >= 1
    ensures forall k :: k in keys ==>
      exists i :: 0 <= i < |CountPerDay(keys)| && CountPerDay(keys)[i].dateKey == k
  {
    var r := CountPerDay(keys);
    CountPerDaySpec(keys);
    forall i | 0 <= i < |r|
      ensures r[i].dateKey in keys && r[i].count == multiset(keys)[r[i].dateKey]
    {
      DatesAt(r, i);
      CountOfRow(r, i);
    }
    forall k | k in keys
      ensures exists i :: 0 <= i < |r| && r[i].dateKey == k
    {
      DatesHaveRows(r, k);
    }
  }

  /** Three results over two days: two rows, in day order. */
  lemma CountPerDayExample(keys: seq<int>)
    requires keys == [20140929, 20140930, 20140929]
    ensures CountPerDay(keys) == [DayCount(20140929, 2), DayCount(20140930, 1)]
  {
    var one, two := keys[..1], keys[..2];
    assert one[..0] == [];
    assert CountPerDay(one) == [DayCount(20140929, 1)];
    assert two[..1] == one;
    assert [DayCount(20140929, 1)][1..] == [];
    assert CountPerDay(two) == [DayCount(20140929, 1), DayCount(20140930, 1)];
  }
}
