/**
 * The Python string built-ins the reader relies on: `sep.join(items)`,
 * `str.split()` with no argument, `str(k)` for a natural number and `int(s)`
 * for a string that holds no whitespace.
 */
module Text {
  import opened Wrappers

  // ---------------------------------------------------------------------------
  // sep.join(items)
  // ---------------------------------------------------------------------------

  /** `sep.join(items)`: the items in order, with `sep` between neighbours. */
  function Join(items: seq<string>, sep: string): string
  {
    if |items| == 0 then ""
    else if |items| == 1 then items[0]
    else items[0] + sep + Join(items[1..], sep)
  }

  /** Where item `i` starts in `Join(items, sep)`: every earlier item and one separator after each. */
  function Offset(items: seq<string>, sep: string, i: nat): nat
    requires i <= |items|
  {
    if i == 0 then 0 else |items[0]| + |sep| + Offset(items[1..], sep, i - 1)
  }

  /** What follows the start of item `i` is the join of the items from `i` on. */
  lemma {:induction false} JoinFrom(items: seq<string>, sep: string, i: nat)
    requires i < |items|
    ensures Offset(items, sep, i) <= |Join(items, sep)|
    ensures Join(items, sep)[Offset(items, sep, i)..] == Join(items[i..], sep)
  {
    if i > 0 {
      var head, rest := items[0] + sep, Join(items[1..], sep);
      assert Join(items, sep) == head + rest;
      JoinFrom(items[1..], sep, i - 1);
      assert items[1..][i - 1..] == items[i..];
      DropAfter(head, rest, Offset(items[1..], sep, i - 1));
    }
  }

  /** Dropping past a prefix and then `k` more characters leaves the tail of what follows it. */
  lemma DropAfter(a: string, b: string, k: nat)
    requires k <= |b|
    ensures (a + b)[|a| + k..] == b[k..]
  {
  }

  /**
   * Position-by-position description of a join: item `i` sits at `Offset(i)`,
   * exactly one `sep` follows it when another item comes next, and the string
   * ends with the last item.
   */
  lemma JoinLayout(items: seq<string>, sep: string, i: nat)
    requires i < |items|
    ensures Offset(items, sep, i) + |items[i]| <= |Join(items, sep)|
    ensures Join(items, sep)[Offset(items, sep, i)..Offset(items, sep, i) + |items[i]|] == items[i]
    ensures i + 1 == |items| ==> Offset(items, sep, i) + |items[i]| == |Join(items, sep)|
    ensures i + 1 < |items| ==>
      Offset(items, sep, i) + |items[i]| + |sep| <= |Join(items, sep)| &&
      Join(items, sep)[Offset(items, sep, i) + |items[i]|..Offset(items, sep, i) + |items[i]| + |sep|] == sep
  {
    JoinFrom(items, sep, i);
    var o := Offset(items, sep, i);
    var j := Join(items, sep);
    if i + 1 < |items| {
      assert j[o..] == items[i] + sep + Join(items[i + 1..], sep) by {
        assert items[i..][1..] == items[i + 1..];
      }
      assert j[o..o + |items[i]|] == j[o..][..|items[i]|];
      assert j[o + |items[i]|..o + |items[i]| + |sep|] == j[o..][|items[i]|..|items[i]| + |sep|];
    } else {
      assert j[o..] == items[i];
      assert j[o..o + |items[i]|] == j[o..][..|items[i]|];
    }
  }

  /** Every character of a join comes from one of the items or from the separator. */
  lemma {:induction false} JoinChars(items: seq<string>, sep: string)
    ensures forall c :: c in Join(items, sep) ==> c in sep || exists i :: 0 <= i < |items| && c in items[i]
  {
    if |items| > 1 {
      var rest := Join(items[1..], sep);
      JoinChars(items[1..], sep);
      assert Join(items, sep) == items[0] + sep + rest;
      forall c | c in Join(items, sep)
        ensures c in sep || exists i :: 0 <= i < |items| && c in items[i]
      {
        if c !in items[0] && c !in sep {
          assert c in rest;
          var j :| 0 <= j < |items[1..]| && c in items[1..][j];
          assert c in items[j + 1];
        }
      }
    }
  }

  /** A slice that lies inside a known prefix of a string is that slice of the prefix. */
  lemma PrefixSlice(s: string, prefix: string, from: nat, to: nat)
    requires from <= to <= |prefix| <= |s| && s[..|prefix|] == prefix
    ensures s[from..to] == prefix[from..to]
  {
    assert forall k :: from <= k < to ==> s[k] == s[..|prefix|][k];
  }

  // ---------------------------------------------------------------------------
  // str.split() with no argument
  // ---------------------------------------------------------------------------

  /**
   * The characters Python 2.7's `unicode.split()` treats as whitespace:
   * tab to carriage return, the four information separators, space, NEL,
   * no-break space and the Unicode space separators and line/paragraph
   * separators of its character tables.
   */
  predicate IsSpace(c: char)
  {
    || ('\t' <= c <= '\r')
    || ('\U{1C}' <= c <= '\U{1F}')
    || c == ' '
    || c == '\U{85}'
    || c == '\U{A0}'
    || c == '\U{1680}'
    || c == '\U{180E}'
    || ('\U{2000}' <= c <= '\U{200A}')
    || c == '\U{2028}'
    || c == '\U{2029}'
    || c == '\U{202F}'
    || c == '\U{205F}'
    || c == '\U{3000}'
  }

  /** A field that `split()` can return: non-empty and free of whitespace. */
  predicate IsWord(w: string)
  {
    |w| > 0 && forall i :: 0 <= i < |w| ==> !IsSpace(w[i])
  }

  /**
   * `s.split()`: the maximal runs of non-whitespace characters, in order;
   * leading, trailing and repeated whitespace produce no empty fields.
   */
  function Split(s: string): seq<string>
  {
    Scan(s, "")
  }

  /**
   * The left-to-right scan behind `split()`: `field` holds the characters of
   * the field being read; whitespace ends it, and an empty field is dropped.
   */
  function Scan(s: string, field: string): seq<string>
    decreases |s|
  {
    if |s| == 0 then (if field == "" then [] else [field])
    else if IsSpace(s[0]) then (if field == "" then [] else [field]) + Scan(s[1..], "")
    else Scan(s[1..], field + [s[0]])
  }

  /** Every field the scan returns is non-empty and holds no whitespace. */
  lemma {:induction false} ScanWords(s: string, field: string)
    requires field == "" || IsWord(field)
    ensures forall i :: 0 <= i < |Scan(s, field)| ==> IsWord(Scan(s, field)[i])
    decreases |s|
  {
    if |s| > 0 {
      if IsSpace(s[0]) {
        ScanWords(s[1..], "");
      } else {
        assert IsWord(field + [s[0]]);
        ScanWords(s[1..], field + [s[0]]);
      }
    }
  }

  /** Every field `split()` returns is non-empty and holds no whitespace. */
  lemma SplitWords(s: string)
    ensures forall i :: 0 <= i < |Split(s)| ==> IsWord(Split(s)[i])
  {
    ScanWords(s, "");
  }

  /** Reading a run of non-whitespace characters only extends the current field. */
  lemma {:induction false} ScanWord(w: string, tail: string, field: string)
    requires forall i :: 0 <= i < |w| ==> !IsSpace(w[i])
    ensures Scan(w + tail, field) == Scan(tail, field + w)
    decreases |w|
  {
    if |w| == 0 {
      assert w + tail == tail;
      assert field + w == field;
    } else {
      assert (w + tail)[1..] == w[1..] + tail;
      assert field + [w[0]] + w[1..] == field + w;
      ScanWord(w[1..], tail, field + [w[0]]);
    }
  }

  /** Splitting words joined by single spaces gives the words back. */
  lemma {:induction false} SplitJoin(words: seq<string>)
    requires forall i :: 0 <= i < |words| ==> IsWord(words[i])
    ensures Split(Join(words, " ")) == words
  {
    if |words| == 1 {
      var w := words[0];
      ScanWord(w, "", "");
      assert w + "" == w && "" + w == w;
    } else if |words| > 1 {
      var w, rest := words[0], Join(words[1..], " ");
      ScanWord(w, " " + rest, "");
      assert Join(words, " ") == w + (" " + rest);
      assert "" + w == w;
      assert (" " + rest)[1..] == rest;
      SplitJoin(words[1..]);
    }
  }

  // ---------------------------------------------------------------------------
  // Decimal digits: str(k) and int(s)
  // ---------------------------------------------------------------------------

  predicate IsDigit(c: char)
  {
    '0' <= c <= '9'
  }

  /** Every character is an ASCII decimal digit, checked from the right as digits are read. */
  predicate AllDigits(s: string)
  {
    |s| == 0 || (AllDigits(s[..|s| - 1]) && IsDigit(s[|s| - 1]))
  }

  /** `AllDigits` holds exactly when every position holds a digit. */
  lemma {:induction false} AllDigitsAt(s: string)
    ensures AllDigits(s) <==> forall i :: 0 <= i < |s| ==> IsDigit(s[i])
  {
    if |s| > 0 {
      var init := s[..|s| - 1];
      AllDigitsAt(init);
      assert forall i :: 0 <= i < |init| ==> init[i] == s[i];
    }
  }

  function Pow10(n: nat): (p: nat)
    ensures p >= 1
  {
    if n == 0 then 1 else 10 * Pow10(n - 1)
  }

  /** The value of one decimal digit. */
  function DigitOf(c: char): int
  {
    (c as int) - ('0' as int)
  }

  /** The number a string of decimal digits denotes (leading zeros allowed). */
  function DigitsValue(s: string): nat
    requires AllDigits(s)
  {
    if |s| == 0 then 0
    else DigitsValue(s[..|s| - 1]) * 10 + DigitOf(s[|s| - 1])
  }

  /** Reading the concatenation of two digit strings shifts the first by the length of the second. */
  lemma {:induction false} DigitsValueAppend(a: string, b: string)
    requires AllDigits(a) && AllDigits(b)
    ensures AllDigits(a + b)
    ensures DigitsValue(a + b) == DigitsValue(a) * Pow10(|b|) + DigitsValue(b)
    decreases |b|
  {
    if |b| > 0 {
      var b' := b[..|b| - 1];
      assert (a + b)[..|a + b| - 1] == a + b';
      DigitsValueAppend(a, b');
      var x, p, y, c := DigitsValue(a), Pow10(|b'|), DigitsValue(b'), DigitOf(b[|b| - 1]);
      assert DigitsValue(a + b) == DigitsValue(a + b') * 10 + c;
      assert DigitsValue(b) == y * 10 + c;
      assert Pow10(|b|) == p * 10;
      Shift(x, p, y, c);
    } else {
      assert a + b == a;
    }
  }

  lemma Shift(x: int, p: int, y: int, c: int)
    ensures (x * p + y) * 10 + c == x * (p * 10) + (y * 10 + c)
  {
  }

  /** `str(k)` for a natural number: its decimal digits, without leading zeros. */
  function Decimal(k: nat): string
  {
    if k < 10 then [('0' as int + k) as char]
    else Decimal(k / 10) + [('0' as int + k % 10) as char]
  }

  /** `str` and digit reading are inverse: `int(str(k)) == k`. */
  lemma {:induction false} DecimalValue(k: nat)
    ensures AllDigits(Decimal(k))
    ensures DigitsValue(Decimal(k)) == k
    ensures |Decimal(k)| >= 1 && (k >= 10 ==> Decimal(k)[0] != '0')
  {
    if k >= 10 {
      DecimalValue(k / 10);
      var d := Decimal(k);
      assert d[..|d| - 1] == Decimal(k / 10);
    }
  }

  /**
   * `int(s)` for a string without whitespace: an optional `+` or `-` followed by
   * one or more ASCII digits; anything else is Python's ValueError, here `None`.
   */
  function ParseInt(s: string): Option<int>
  {
    if |s| > 0 && (s[0] == '+' || s[0] == '-') then
      if |s| > 1 && AllDigits(s[1..]) then
        Some(if s[0] == '-' then -(DigitsValue(s[1..]) as int) else DigitsValue(s[1..]))
      else None
    else if |s| > 0 && AllDigits(s) then Some(DigitsValue(s))
    else None
  }

  /** `int` accepts exactly the signed digit strings and reads them as decimal numbers. */
  lemma ParseIntDigits(s: string)
    ensures (|s| > 0 && AllDigits(s)) ==> ParseInt(s) == Some(DigitsValue(s))
    ensures |s| == 0 ==> ParseInt(s) == None
    ensures (|s| > 0 && !AllDigits(s) && s[0] != '+' && s[0] != '-') ==> ParseInt(s) == None
  {
    AllDigitsAt(s);
  }
}
