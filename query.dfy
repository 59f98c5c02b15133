/**
 * Construction of the search string handed to Twitter's search endpoint,
 * using its advanced-search operators: ` OR ` between wanted phrases and a
 * `-` in front of every excluded phrase.
 */
module Query {
  import opened Text

  /** The wanted phrases joined by ` OR `; no quotes are added around them. */
  function SearchClause(searchList: seq<string>): string
  {
    Join(searchList, " OR ")
  }

  /** The excluded phrases: empty for no phrases, otherwise `-` then the phrases joined by ` -`. */
  function ExcludeClause(excludeList: seq<string>): string
  {
    if excludeList == [] then "" else "-" + Join(excludeList, " -")
  }

  /** The full query: the search clause, one space, the exclude clause. */
  function SearchQuery(searchList: seq<string>, excludeList: seq<string>): string
  {
    SearchClause(searchList) + " " + ExcludeClause(excludeList)
  }

  /** Each excluded phrase with a `-` put in front of it. */
  function Negated(phrases: seq<string>): seq<string>
  {
    seq(|phrases|, i requires 0 <= i < |phrases| => "-" + phrases[i])
  }

  /**
   * The clause is empty for no phrases and the phrase itself for one. Phrase
   * `i` appears verbatim at its offset, followed by ` OR ` unless it is the
   * last, and the clause ends with the last phrase.
   */
  lemma SearchClauseShape(searchList: seq<string>)
    ensures searchList == [] ==> SearchClause(searchList) == ""
    ensures |searchList| == 1 ==> SearchClause(searchList) == searchList[0]
    ensures forall i :: 0 <= i < |searchList| ==>
      var o, len := Offset(searchList, " OR ", i), |searchList[i]|;
      o + len <= |SearchClause(searchList)| &&
      SearchClause(searchList)[o..o + len] == searchList[i] &&
      (i + 1 == |searchList| ==> o + len == |SearchClause(searchList)|) &&
      (i + 1 < |searchList| ==>
        o + len + 4 <= |SearchClause(searchList)| && SearchClause(searchList)[o + len..o + len + 4] == " OR ")
  {
    forall i | 0 <= i < |searchList| {
      JoinLayout(searchList, " OR ", i);
    }
  }

  /**
   * Every character of the clause comes from a phrase or from ` OR `, so no
   * quotes are added: a double quote in the clause was already in a phrase.
   */
  lemma SearchClauseNoQuotes(searchList: seq<string>)
    ensures forall c :: c in SearchClause(searchList) ==>
      c in " OR " || exists i :: 0 <= i < |searchList| && c in searchList[i]
    ensures '"' in SearchClause(searchList) ==> exists i :: 0 <= i < |searchList| && '"' in searchList[i]
  {
    JoinChars(searchList, " OR ");
    assert '"' !in " OR ";
  }

  /**
   * The exclude clause is every phrase prefixed with `-`, the results separated
   * by one space (`["orange", "kok"]` gives `"-orange -kok"`), and empty for no
   * phrases.
   */
  lemma {:induction false} ExcludeClauseIsNegatedWords(excludeList: seq<string>)
    ensures ExcludeClause(excludeList) == Join(Negated(excludeList), " ")
  {
    if |excludeList| > 1 {
      var rest := excludeList[1..];
      ExcludeClauseIsNegatedWords(rest);
      assert Negated(excludeList)[1..] == Negated(rest);
      calc {
        ExcludeClause(excludeList);
        "-" + (excludeList[0] + " -" + Join(rest, " -"));
        ("-" + excludeList[0]) + " " + ("-" + Join(rest, " -"));
        ("-" + excludeList[0]) + " " + Join(Negated(rest), " ");
        Join(Negated(excludeList), " ");
      }
    }
  }

  /**
   * Every query starts with the search clause and a space; with no excluded
   * phrases that space is the last character.
   */
  lemma SearchQueryShape(searchList: seq<string>, excludeList: seq<string>)
    ensures var q := SearchQuery(searchList, excludeList);
      var n := |SearchClause(searchList)|;
      |q| > n && q[..n] == SearchClause(searchList) && q[n] == ' ' &&
      q[n + 1..] == Join(Negated(excludeList), " ")
    ensures excludeList == [] ==>
      SearchQuery(searchList, excludeList) == SearchClause(searchList) + " "
  {
    ExcludeClauseIsNegatedWords(excludeList);
    var q := SearchQuery(searchList, excludeList);
    var n := |SearchClause(searchList)|;
    assert q[..n] == SearchClause(searchList);
    assert q[n + 1..] == ExcludeClause(excludeList);
  }

  /** Two wanted phrases and nothing excluded: the query ends in a space. */
  lemma SearchQueryTrailingSpace()
    ensures SearchQuery(["A", "B"], []) == "A OR B "
  {
    assert Join(["A", "B"], " OR ") == "A" + " OR " + Join(["B"], " OR ");
  }

  /** One wanted phrase and two excluded ones. */
  lemma SearchQueryExcluding()
    ensures SearchQuery(["A"], ["C", "D"]) == "A -C -D"
  {
    assert Join(["C", "D"], " -") == "C" + " -" + Join(["D"], " -");
  }

  /** The query of the reader's first demonstration run. */
  lemma SearchQueryDemonstration()
    ensures SearchQuery(["apple", "meat", "kiwi"], ["orange", "kok"])
         == "apple OR meat OR kiwi -orange -kok"
  {
    DemonstrationClauses();
  }

  lemma DemonstrationClauses()
    ensures SearchClause(["apple", "meat", "kiwi"]) == "apple OR meat OR kiwi"
    ensures ExcludeClause(["orange", "kok"]) == "-orange -kok"
  {
    assert Join(["meat", "kiwi"], " OR ") == "meat" + " OR " + Join(["kiwi"], " OR ");
    assert Join(["apple", "meat", "kiwi"], " OR ") == "apple" + " OR " + Join(["meat", "kiwi"], " OR ");
    assert Join(["orange", "kok"], " -") == "orange" + " -" + Join(["kok"], " -");
  }
}
