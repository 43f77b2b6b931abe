// The sender ranking of analyzer.py and its own copy of `chunks`.

module Analysis {
  import opened Wrappers
  import opened Helpers
  import opened Processing

  // ------------------------------------------------------------------
  // chunks, as copied into analyzer.py
  // ------------------------------------------------------------------

  /** The slices `l[i:i + n]`, `l[i + n:i + 2n]`, ... that the generator yields from position `i`
      on; a Python slice past the end stops at the end. */
  function ChunksFrom<T>(l: seq<T>, n: nat, i: nat): seq<seq<T>>
    requires n > 0
    decreases |l| - i
  {
    if i >= |l| then [] else [l[i..Min(i + n, |l|)]] + ChunksFrom(l, n, i + n)
  }

  lemma {:induction false} ChunksFromSuffix<T>(l: seq<T>, n: nat, i: nat)
    requires n > 0 && i <= |l|
    ensures ChunksFrom(l, n, i) == Chunks(l[i..], n)
    decreases |l| - i
  {
    if i < |l| {
      if i + n <= |l| {
        ChunksFromSuffix(l, n, i + n);
        ChunksFromFull(l, n, i);
      } else {
        ChunksFromLast(l, n, i);
      }
    }
  }

  /** A full slice of `n` followed by the chunks of what is after it. */
  lemma ChunksFromFull<T>(l: seq<T>, n: nat, i: nat)
    requires n > 0 && i + n <= |l|
    requires ChunksFrom(l, n, i + n) == Chunks(l[i + n..], n)
    ensures ChunksFrom(l, n, i) == Chunks(l[i..], n)
  {
    var s := l[i..];
    assert s[..n] == l[i..i + n];
    assert s[n..] == l[i + n..];
  }

  /** The last, possibly short, slice. */
  lemma ChunksFromLast<T>(l: seq<T>, n: nat, i: nat)
    requires n > 0 && i < |l| < i + n
    ensures ChunksFrom(l, n, i) == Chunks(l[i..], n)
  {
    var s := l[i..];
    assert s[..|s|] == l[i..|l|];
    assert s[|s|..] == [];
  }

  /** The copy of `chunks` in analyzer.py yields exactly the chunks of the helpers.py version. */
  lemma ChunksCopyAgrees<T>(l: seq<T>, n: nat)
    requires n > 0
    ensures ChunksFrom(l, n, 0) == Chunks(l, n)
  {
    ChunksFromSuffix(l, n, 0);
    assert l[0..] == l;
  }

  // ------------------------------------------------------------------
  // The table of captured records
  // ------------------------------------------------------------------

  /** The values agate's `Text` cast reads as `None` (after stripping and lower-casing). */
  predicate IsNullValue(t: string) {
    t == "" || t == "na" || t == "n/a" || t == "none" || t == "null" || t == "."
  }

  /** Where the whitespace at the end of `s` starts. */
  function TrailingSpaces(s: string): (j: nat)
    ensures j <= |s|
    ensures forall k :: j <= k < |s| ==> IsSpace(s[k])
    ensures 0 < j ==> !IsSpace(s[j - 1])
  {
    if |s| == 0 || !IsSpace(s[|s| - 1]) then |s|
    else
      var j := TrailingSpaces(s[..|s| - 1]);
      assert forall k :: j <= k < |s| - 1 ==> s[k] == s[..|s| - 1][k];
      j
  }

  /** `str.strip()`: `s` without the whitespace at either end. */
  function Strip(s: string): (r: string)
    ensures |r| == 0 || (!IsSpace(r[0]) && !IsSpace(r[|r| - 1]))
    ensures r == [] <==> forall k :: 0 <= k < |s| ==> IsSpace(s[k])
    ensures exists i, j ::
      && 0 <= i <= j <= |s| && r == s[i..j]
      && (forall k :: 0 <= k < i ==> IsSpace(s[k]))
      && (forall k :: j <= k < |s| ==> IsSpace(s[k]))
  {
    var i := SpanEnd(s, 0);
    if i == |s| then
      assert s[i..i] == [];
      []
    else
      var j := TrailingSpaces(s);
      assert i < j;
      var r := s[i..j];
      assert r[0] == s[i] && r[|r| - 1] == s[j - 1];
      r
  }

  /** `str.lower()` restricted to ASCII. Outside ASCII only U+212A (the Kelvin sign, to `k`)
      and U+0130 (to `i` and a combining dot) lower to something holding an ASCII letter, and
      neither forms a null value, so `IsNullValue` is decided the same way. */
  function LowerText(s: string): (r: string)
    ensures |r| == |s| && forall k :: 0 <= k < |s| ==> r[k] == LowerAscii(s[k])
  {
    seq(|s|, k requires 0 <= k < |s| => LowerAscii(s[k]))
  }

  /** agate's `Text` cast of a `fields/from` value: a value that strips and lower-cases to a null
      value reads as `None`; any other value is kept unchanged. */
  function CastText(v: Option<string>): (r: Option<string>)
    ensures r.None? <==> v.None? || IsNullValue(LowerText(Strip(v.value)))
    ensures r.Some? ==> r == v
  {
    match v
    case None => None
    case Some(s) => if IsNullValue(LowerText(Strip(s))) then None else v
  }

  /** Stripping removes exactly the whitespace around a text that starts and ends with something else. */
  lemma {:induction false} StripAround(p: string, t: string, q: string)
    requires forall k :: 0 <= k < |p| ==> IsSpace(p[k])
    requires forall k :: 0 <= k < |q| ==> IsSpace(q[k])
    requires |t| > 0 && !IsSpace(t[0]) && !IsSpace(t[|t| - 1])
    ensures Strip(p + t + q) == t
  {
    var s := p + t + q;
    var i, j := |p|, |p| + |t|;
    assert SpanEnd(s, 0) == i by {
      assert forall k :: 0 <= k < i ==> s[k] == p[k];
      assert s[i] == t[0];
      SpanEndPast(s, 0, i);
    }
    assert TrailingSpaces(s) == j by {
      assert forall k :: j <= k < |s| ==> s[k] == q[k - j];
      assert s[j - 1] == t[|t| - 1];
      TrailingSpacesFrom(s, j);
    }
    assert s[i..j] == t;
  }

  /** The whitespace at the end starts at `m` when everything from `m` on is whitespace and the
      character before `m` is not. */
  lemma {:induction false} TrailingSpacesFrom(s: string, m: nat)
    requires m <= |s| && forall k :: m <= k < |s| ==> IsSpace(s[k])
    requires m == 0 || !IsSpace(s[m - 1])
    ensures TrailingSpaces(s) == m
  {
    if m < |s| {
      var s' := s[..|s| - 1];
      assert forall k :: m <= k < |s'| ==> s'[k] == s[k];
      assert m == 0 || s'[m - 1] == s[m - 1];
      TrailingSpacesFrom(s', m);
    }
  }

  /** Whitespace up to `m` is skipped by the greedy span. */
  lemma {:induction false} SpanEndPast(s: string, i: nat, m: nat)
    requires i <= m <= |s| && forall k :: i <= k < m ==> IsSpace(s[k])
    requires m == |s| || !IsSpace(s[m])
    ensures SpanEnd(s, i) == m
    decreases m - i
  {
    if i < m {
      SpanEndPast(s, i + 1, m);
    }
  }

  /** `None` with any whitespace around it is a null. */
  lemma CastTextPadded(p: string, w: string, q: string)
    requires forall k :: 0 <= k < |p| ==> IsSpace(p[k])
    requires forall k :: 0 <= k < |q| ==> IsSpace(q[k])
    requires w == "None"
    ensures CastText(Some(p + w + q)) == None
  {
    var s := p + w + q;
    assert Strip(s) == w by {
      StripAround(p, w, q);
    }
    NoneIsNull(w);
  }

  lemma NoneIsNull(w: string)
    requires w == "None"
    ensures IsNullValue(LowerText(w))
  {
    assert LowerText(w) == "none";
  }

  /** `N/A` in capitals is a null. */
  lemma CastTextUpper(b: string)
    requires b == "N/A"
    ensures CastText(Some(b)) == None
  {
    assert Strip(b) == b by {
      StripAround("", b, "");
      assert "" + b + "" == b;
    }
    NaIsNull(b);
  }

  lemma NaIsNull(b: string)
    requires b == "N/A"
    ensures IsNullValue(LowerText(b))
  {
    assert LowerText(b) == "n/a";
  }

  /** A sender that only begins with a null word stays as it is. */
  lemma CastTextKeeps(c: string)
    requires c == "null <n@x>"
    ensures CastText(Some(c)) == Some(c)
  {
    assert Strip(c) == c by {
      StripAround("", c, "");
      assert "" + c + "" == c;
    }
    assert !IsNullValue(LowerText(c)) by {
      assert |LowerText(c)| == 10;
    }
  }

  /** The `fields/from` column of the table loaded from the captured records, in queue order,
      after agate's text cast. */
  function Senders(records: seq<MessageRecord>): (r: seq<Option<string>>)
    ensures |r| == |records|
    ensures forall i :: 0 <= i < |r| ==> r[i] == CastText(records[i].fields.from)
  {
    seq(|records|, i requires 0 <= i < |records| => CastText(records[i].fields.from))
  }

  /** The position of the first occurrence of `k` in `xs`, or `|xs|` when there is none. */
  function FirstIndex<T(==)>(xs: seq<T>, k: T): (r: nat)
    ensures r <= |xs|
    ensures r < |xs| <==> k in xs
    ensures r < |xs| ==> xs[r] == k
    ensures forall i :: 0 <= i < r ==> xs[i] != k
  {
    if |xs| == 0 then 0
    else if xs[0] == k then 0
    else 1 + FirstIndex(xs[1..], k)
  }

  lemma FirstIndexSnoc<T>(xs: seq<T>, x: T, k: T)
    requires k in xs || k == x
    ensures FirstIndex(xs + [x], k) == if k in xs then FirstIndex(xs, k) else |xs|
  {
    var i := FirstIndex(xs + [x], k);
    if k in xs {
      var j := FirstIndex(xs, k);
      assert (xs + [x])[j] == k;
    } else {
      assert (xs + [x])[|xs|] == k;
    }
  }

  /** The distinct values of `xs` in order of first appearance: the groups of a pivot. */
  function FirstSeen(xs: seq<Option<string>>): (r: seq<Option<string>>)
    ensures forall k :: k in r <==> k in xs
    ensures forall i, j :: 0 <= i < j < |r| ==> FirstIndex(xs, r[i]) < FirstIndex(xs, r[j])
  {
    if |xs| == 0 then []
    else
      var init := xs[..|xs| - 1];
      var x := xs[|xs| - 1];
      assert xs == init + [x];
      var d := FirstSeen(init);
      forall k | k in init {
        FirstIndexSnoc(init, x, k);
      }
      if x in d then d
      else
        FirstIndexSnoc(init, x, x);
        d + [x]
  }

  // ------------------------------------------------------------------
  // pivot, where, order_by, limit
  // ------------------------------------------------------------------

  /** A row of the pivot table: a `fields/from` value and its `Count`. */
  datatype Row = Row(key: Option<string>, count: nat)

  /** `pivot("fields/from")`: one row per distinct sender, `None` included, in order of first
      appearance, counting the records that hold it. */
  function Pivot(senders: seq<Option<string>>): (r: seq<Row>)
    ensures forall k :: (exists i :: 0 <= i < |r| && r[i].key == k) <==> k in senders
    ensures forall i :: 0 <= i < |r| ==> r[i].count == multiset(senders)[r[i].key]
    ensures FirstSeenOrder(r, senders)
  {
    var keys := FirstSeen(senders);
    var r := seq(|keys|, i requires 0 <= i < |keys| => Row(keys[i], multiset(senders)[keys[i]]));
    forall k | k in keys
      ensures exists i :: 0 <= i < |r| && r[i].key == k
    {
      var i :| 0 <= i < |keys| && keys[i] == k;
      assert r[i].key == k;
    }
    r
  }

  /** Rows listed in strictly increasing order of their key's first appearance. */
  predicate FirstSeenOrder(rows: seq<Row>, senders: seq<Option<string>>) {
    forall i, j :: 0 <= i < j < |rows| ==> FirstIndex(senders, rows[i].key) < FirstIndex(senders, rows[j].key)
  }

  /** `where(lambda row: row["fields/from"] is not None)`: the rows with a sender, in order. */
  function Where(rows: seq<Row>): (r: seq<Row>)
    ensures forall x :: x in r <==> x in rows && x.key.Some?
  {
    if |rows| == 0 then []
    else (if rows[0].key.Some? then [rows[0]] else []) + Where(rows[1..])
  }

  lemma {:induction false} WhereKeepsOrder(rows: seq<Row>, senders: seq<Option<string>>)
    requires FirstSeenOrder(rows, senders)
    ensures FirstSeenOrder(Where(rows), senders)
  {
    if |rows| > 0 {
      WhereKeepsOrder(rows[1..], senders);
      var rest := Where(rows[1..]);
      if rows[0].key.Some? {
        forall j | 0 <= j < |rest|
          ensures FirstIndex(senders, rows[0].key) < FirstIndex(senders, rest[j].key)
        {
          assert rest[j] in rows[1..];
        }
      }
    }
  }

  /** Puts `x` after every row of `s` whose count is at least its own. */
  function Insert(s: seq<Row>, x: Row): (r: seq<Row>)
    ensures multiset(r) == multiset(s) + multiset{x}
  {
    if |s| == 0 then [x]
    else
      assert s == [s[0]] + s[1..];
      if s[0].count >= x.count then [s[0]] + Insert(s[1..], x)
      else [x] + s
  }

  /** `order_by("Count", reverse=True)`: a stable sort by decreasing count. */
  function OrderByCount(rows: seq<Row>): (r: seq<Row>)
    ensures multiset(r) == multiset(rows)
  {
    if |rows| == 0 then []
    else
      assert rows == rows[..|rows| - 1] + [rows[|rows| - 1]];
      Insert(OrderByCount(rows[..|rows| - 1]), rows[|rows| - 1])
  }

  /** Row `a` comes before row `b` in the ranking: a higher count, or the same count and a sender
      seen earlier. */
  predicate Precedes(a: Row, b: Row, senders: seq<Option<string>>) {
    a.count > b.count || (a.count == b.count && FirstIndex(senders, a.key) < FirstIndex(senders, b.key))
  }

  /** Counts never increase along `rows`, and rows with equal counts keep first-seen order. */
  predicate Ranked(rows: seq<Row>, senders: seq<Option<string>>) {
    forall i, j :: 0 <= i < j < |rows| ==> Precedes(rows[i], rows[j], senders)
  }

  lemma RankedCons(h: Row, rest: seq<Row>, senders: seq<Option<string>>)
    requires Ranked(rest, senders)
    requires forall j :: 0 <= j < |rest| ==> Precedes(h, rest[j], senders)
    ensures Ranked([h] + rest, senders)
  {
    var s := [h] + rest;
    forall i, j | 0 <= i < j < |s|
      ensures Precedes(s[i], s[j], senders)
    {
      if i > 0 {
        assert s[i] == rest[i - 1] && s[j] == rest[j - 1];
      }
    }
  }

  lemma {:induction false} InsertRanked(s: seq<Row>, x: Row, senders: seq<Option<string>>)
    requires Ranked(s, senders)
    requires forall y :: y in s ==> FirstIndex(senders, y.key) < FirstIndex(senders, x.key)
    ensures Ranked(Insert(s, x), senders)
  {
    if |s| == 0 {
    } else if s[0].count >= x.count {
      var rest := Insert(s[1..], x);
      assert Ranked(s[1..], senders) by {
        forall i, j | 0 <= i < j < |s[1..]|
          ensures Precedes(s[1..][i], s[1..][j], senders)
        {
          assert s[1..][i] == s[i + 1] && s[1..][j] == s[j + 1];
        }
      }
      InsertRanked(s[1..], x, senders);
      forall j | 0 <= j < |rest|
        ensures Precedes(s[0], rest[j], senders)
      {
        assert rest[j] in multiset(s[1..]) + multiset{x};
        if rest[j] != x {
          assert rest[j] in s[1..];
          var k :| 0 <= k < |s[1..]| && s[1..][k] == rest[j];
          assert s[k + 1] == rest[j];
        }
      }
      RankedCons(s[0], rest, senders);
    } else {
      forall j | 0 <= j < |s|
        ensures Precedes(x, s[j], senders)
      {
        if j > 0 {
          assert Precedes(s[0], s[j], senders);
        }
      }
      RankedCons(x, s, senders);
    }
  }

  /** Ordering rows that arrive in first-seen order ranks them by count, then first appearance. */
  lemma {:induction false} OrderByCountRanked(rows: seq<Row>, senders: seq<Option<string>>)
    requires FirstSeenOrder(rows, senders)
    ensures Ranked(OrderByCount(rows), senders)
  {
    if |rows| > 0 {
      var init := rows[..|rows| - 1];
      var x := rows[|rows| - 1];
      OrderByCountRanked(init, senders);
      var s := OrderByCount(init);
      forall y | y in s
        ensures FirstIndex(senders, y.key) < FirstIndex(senders, x.key)
      {
        assert y in multiset(init);
        var k :| 0 <= k < |init| && init[k] == y;
      }
      InsertRanked(s, x, senders);
    }
  }

  /** `limit(20)`. */
  const Limit: nat := 20

  /** The rows the ranking keeps, before the columns are read out. */
  function TopRows(senders: seq<Option<string>>): seq<Row> {
    var sorted := OrderByCount(Where(Pivot(senders)));
    sorted[..Min(Limit, |sorted|)]
  }

  /** What `_analyze_from` returns: the senders and, for each, its count in a one-element list. */
  datatype Ranking = Ranking(dataKeys: seq<string>, dataCount: seq<seq<int>>)

  function KeyText(row: Row): string {
    match row.key
    case Some(k) => k
    case None => ""
  }

  /** The ranking `_analyze_from` computes from a table that has a `fields/from` column: the (at
      most twenty) most frequent senders, most frequent first. */
  function Report(records: seq<MessageRecord>): (r: Ranking)
    ensures |r.dataKeys| == |r.dataCount| <= Limit
    ensures forall i :: 0 <= i < |r.dataCount| ==> |r.dataCount[i]| == 1
  {
    var top := TopRows(Senders(records));
    Ranking(
      seq(|top|, i requires 0 <= i < |top| => KeyText(top[i])),
      seq(|top|, i requires 0 <= i < |top| => [top[i].count as int]))
  }

  /** `_analyze_from`. The table loaded from an empty queue has no columns, so `pivot` raises
      `KeyError('fields/from')`; any other queue gives its ranking. */
  function AnalyzeFrom(records: seq<MessageRecord>): (r: Result<Ranking, Exception>)
    ensures r.Err? <==> records == []
    ensures r.Err? ==> r.error == KeyError("fields/from")
    ensures r.Ok? ==> |r.value.dataKeys| == |r.value.dataCount| <= Limit
    ensures r.Ok? ==> forall i :: 0 <= i < |r.value.dataCount| ==> |r.value.dataCount[i]| == 1
  {
    if records == [] then Err(KeyError("fields/from")) else Ok(Report(records))
  }

  /** The sorted rows before `limit` are ranked. */
  lemma SortedRowsRanked(senders: seq<Option<string>>, sorted: seq<Row>)
    requires sorted == OrderByCount(Where(Pivot(senders)))
    ensures Ranked(sorted, senders)
  {
    WhereKeepsOrder(Pivot(senders), senders);
    OrderByCountRanked(Where(Pivot(senders)), senders);
  }

  /** Every sorted row is a sender other than `None`, with its count. */
  lemma SortedRowsCounted(senders: seq<Option<string>>, sorted: seq<Row>)
    requires sorted == OrderByCount(Where(Pivot(senders)))
    ensures forall x :: x in sorted ==> x.key.Some? && x.key in senders && x.count == multiset(senders)[x.key]
  {
    var pivot := Pivot(senders);
    var rows := Where(pivot);
    forall x | x in sorted
      ensures x.key.Some? && x.key in senders && x.count == multiset(senders)[x.key]
    {
      assert x in multiset(rows);
      assert x in rows;
      var j :| 0 <= j < |pivot| && pivot[j] == x;
    }
  }

  /** Every sender other than `None` has a sorted row. */
  lemma SortedRowsComplete(senders: seq<Option<string>>, sorted: seq<Row>, k: string)
    requires sorted == OrderByCount(Where(Pivot(senders)))
    requires Some(k) in senders
    ensures exists m :: 0 <= m < |sorted| && sorted[m].key == Some(k)
  {
    var pivot := Pivot(senders);
    var rows := Where(pivot);
    var j :| 0 <= j < |pivot| && pivot[j].key == Some(k);
    var x := pivot[j];
    assert x in rows by {
      assert x in pivot;
    }
    assert x in sorted by {
      assert x in multiset(rows);
    }
  }

  /** Two ranked rows never share a sender: equal senders have equal counts and first positions. */
  lemma RankedDistinct(rows: seq<Row>, senders: seq<Option<string>>, i: nat, j: nat)
    requires Ranked(rows, senders) && i < j < |rows|
    requires forall x :: x in rows ==> x.count == multiset(senders)[x.key]
    ensures rows[i].key != rows[j].key
  {
    assert Precedes(rows[i], rows[j], senders);
    assert rows[i] in rows && rows[j] in rows;
  }

  /** The rows kept by `limit` are ranked senders with their counts. */
  lemma TopRowsRanked(senders: seq<Option<string>>, top: seq<Row>)
    requires top == TopRows(senders)
    ensures |top| <= Limit
    ensures Ranked(top, senders)
    ensures forall x :: x in top ==> x.key.Some? && x.key in senders && x.count == multiset(senders)[x.key]
  {
    var sorted := OrderByCount(Where(Pivot(senders)));
    SortedRowsRanked(senders, sorted);
    SortedRowsCounted(senders, sorted);
    PrefixKeeps(sorted, top, senders);
  }

  /** The first `Limit` rows of a ranking are ranked, and are rows of it. */
  lemma PrefixKeeps(sorted: seq<Row>, top: seq<Row>, senders: seq<Option<string>>)
    requires Ranked(sorted, senders) && top == sorted[..Min(Limit, |sorted|)]
    ensures |top| <= Limit && Ranked(top, senders)
    ensures forall x :: x in top ==> x in sorted
  {
    forall i, j | 0 <= i < j < |top|
      ensures Precedes(top[i], top[j], senders)
    {
      assert top[i] == sorted[i] && top[j] == sorted[j];
    }
  }

  /** A sender missing from the rows kept by `limit` is outranked by twenty rows. */
  lemma TopRowsComplete(senders: seq<Option<string>>, top: seq<Row>, k: string)
    requires top == TopRows(senders)
    requires Some(k) in senders && forall i :: 0 <= i < |top| ==> top[i].key != Some(k)
    ensures |top| == Limit
    ensures forall i :: 0 <= i < Limit ==> Precedes(top[i], Row(Some(k), multiset(senders)[Some(k)]), senders)
  {
    var sorted := OrderByCount(Where(Pivot(senders)));
    var row := Row(Some(k), multiset(senders)[Some(k)]);
    SortedRowsComplete(senders, sorted, k);
    var m :| 0 <= m < |sorted| && sorted[m].key == Some(k);
    assert sorted[m] == row by {
      SortedRowsCounted(senders, sorted);
      assert sorted[m] in sorted;
    }
    SortedRowsRanked(senders, sorted);
    PrefixOutranks(sorted, top, senders, m);
  }

  /** A ranked row outside the first `Limit` rows is outranked by every one of them. */
  lemma PrefixOutranks(sorted: seq<Row>, top: seq<Row>, senders: seq<Option<string>>, m: nat)
    requires Ranked(sorted, senders) && top == sorted[..Min(Limit, |sorted|)]
    requires m < |sorted| && forall i :: 0 <= i < |top| ==> top[i].key != sorted[m].key
    ensures |top| == Limit
    ensures forall i :: 0 <= i < Limit ==> Precedes(top[i], sorted[m], senders)
  {
    assert m >= |top| by {
      assert forall i :: 0 <= i < |top| ==> sorted[i].key != sorted[m].key;
    }
    forall i | 0 <= i < Limit
      ensures Precedes(top[i], sorted[m], senders)
    {
      assert top[i] == sorted[i];
    }
  }

  /** The two lists of the report read the sender and the count of each kept row. */
  lemma ReportReadsRows(records: seq<MessageRecord>, r: Ranking, top: seq<Row>)
    requires r == Report(records) && top == TopRows(Senders(records))
    ensures |r.dataKeys| == |r.dataCount| == |top|
    ensures forall i :: 0 <= i < |top| ==> Some(r.dataKeys[i]) == top[i].key && r.dataCount[i] == [top[i].count]
  {
    TopRowsRanked(Senders(records), top);
    forall i | 0 <= i < |top|
      ensures Some(r.dataKeys[i]) == top[i].key
    {
      assert top[i] in top;
    }
  }

  /** When the queue is not empty, `_analyze_from` reports at most twenty distinct senders, never
      `None`, each with the number of captured records whose cast `from` field it is, as a one-element list; counts never increase
      along the report, equal counts are listed in order of first appearance, and a sender left
      out is one that twenty reported senders outrank. */
  lemma AnalyzeFromMeaning(records: seq<MessageRecord>, r: Ranking)
    requires AnalyzeFrom(records) == Ok(r)
    ensures |r.dataKeys| == |r.dataCount| <= Limit
    ensures forall i :: 0 <= i < |r.dataKeys| ==>
      Some(r.dataKeys[i]) in Senders(records)
      && r.dataCount[i] == [multiset(Senders(records))[Some(r.dataKeys[i])]]
    ensures forall i, j :: 0 <= i < j < |r.dataKeys| ==> r.dataKeys[i] != r.dataKeys[j]
    ensures forall i, j :: 0 <= i < j < |r.dataKeys| ==>
      r.dataCount[i][0] > r.dataCount[j][0]
      || (r.dataCount[i][0] == r.dataCount[j][0]
          && FirstIndex(Senders(records), Some(r.dataKeys[i])) < FirstIndex(Senders(records), Some(r.dataKeys[j])))
    ensures forall k :: Some(k) in Senders(records) && k !in r.dataKeys ==>
      |r.dataKeys| == Limit
      && forall i :: 0 <= i < Limit ==>
        r.dataCount[i][0] > multiset(Senders(records))[Some(k)]
        || (r.dataCount[i][0] == multiset(Senders(records))[Some(k)]
            && FirstIndex(Senders(records), Some(r.dataKeys[i])) < FirstIndex(Senders(records), Some(k)))
  {
    assert r == Report(records);
    ReportCounted(records, r);
    ReportOrdered(records, r);
    ReportComplete(records, r);
  }

  /** Each reported sender occurs in the records, with its count, and none is reported twice. */
  lemma ReportCounted(records: seq<MessageRecord>, r: Ranking)
    requires r == Report(records)
    ensures forall i :: 0 <= i < |r.dataKeys| ==>
      Some(r.dataKeys[i]) in Senders(records)
      && r.dataCount[i] == [multiset(Senders(records))[Some(r.dataKeys[i])]]
    ensures forall i, j :: 0 <= i < j < |r.dataKeys| ==> r.dataKeys[i] != r.dataKeys[j]
  {
    var senders := Senders(records);
    var top := TopRows(senders);
    TopRowsRanked(senders, top);
    ReportReadsRows(records, r, top);
    forall i | 0 <= i < |top|
      ensures top[i].count == multiset(senders)[top[i].key] && top[i].key in senders
    {
      assert top[i] in top;
    }
    forall i, j | 0 <= i < j < |top|
      ensures r.dataKeys[i] != r.dataKeys[j]
    {
      RankedDistinct(top, senders, i, j);
    }
  }

  /** Counts never increase along the report, and equal counts keep first-appearance order. */
  lemma ReportOrdered(records: seq<MessageRecord>, r: Ranking)
    requires r == Report(records)
    ensures forall i, j :: 0 <= i < j < |r.dataKeys| ==>
      r.dataCount[i][0] > r.dataCount[j][0]
      || (r.dataCount[i][0] == r.dataCount[j][0]
          && FirstIndex(Senders(records), Some(r.dataKeys[i])) < FirstIndex(Senders(records), Some(r.dataKeys[j])))
  {
    var senders := Senders(records);
    var top := TopRows(senders);
    TopRowsRanked(senders, top);
    ReportReadsRows(records, r, top);
    forall i, j | 0 <= i < j < |top|
      ensures Precedes(top[i], top[j], senders)
    {
    }
  }

  /** A sender left out of the report is outranked by twenty reported ones. */
  lemma ReportComplete(records: seq<MessageRecord>, r: Ranking)
    requires r == Report(records)
    ensures forall k :: Some(k) in Senders(records) && k !in r.dataKeys ==>
      |r.dataKeys| == Limit
      && forall i :: 0 <= i < Limit ==>
        r.dataCount[i][0] > multiset(Senders(records))[Some(k)]
        || (r.dataCount[i][0] == multiset(Senders(records))[Some(k)]
            && FirstIndex(Senders(records), Some(r.dataKeys[i])) < FirstIndex(Senders(records), Some(k)))
  {
    var senders := Senders(records);
    var top := TopRows(senders);
    ReportReadsRows(records, r, top);
    forall k | Some(k) in senders && k !in r.dataKeys
      ensures |top| == Limit
      ensures forall i :: 0 <= i < Limit ==> Precedes(top[i], Row(Some(k), multiset(senders)[Some(k)]), senders)
    {
      forall i | 0 <= i < |top|
        ensures top[i].key != Some(k)
      {
        assert r.dataKeys[i] in r.dataKeys;
      }
      TopRowsComplete(senders, top, k);
    }
  }


  // ------------------------------------------------------------------
  // analyse: waiting for `_analyze_from`
  // ------------------------------------------------------------------

  /** What the second polling loop of `analyse` receives, as written. `_analyze_from` sets its
      event only after the whole pipeline has run, so when `pivot` raises, the event is never set
      and the loop polls forever: `None`. */
  function AnalyseAsWritten(records: seq<MessageRecord>): (r: Option<Ranking>)
    ensures r.None? <==> records == []
    ensures r.Some? ==> AnalyzeFrom(records) == Ok(r.value)
  {
    match AnalyzeFrom(records)
    case Ok(ranking) => Some(ranking)
    case Err(_) => None
  }

  /** The evident intent: the loop always ends; an empty queue gives an empty chart and any other
      queue its ranking. */
  function AnalyseCorrected(records: seq<MessageRecord>): (r: Ranking)
    ensures records == [] ==> r == Ranking([], [])
    ensures records != [] ==> AnalyzeFrom(records) == Ok(r)
  {
    if records == [] then Ranking([], []) else Report(records)
  }

  /** No captured record: as written `analyse` never gets past its polling loop; corrected, it
      draws an empty chart, and on every other queue both agree. */
  lemma EmptyQueueHangs(records: seq<MessageRecord>, other: seq<MessageRecord>)
    requires records == [] && other != []
    ensures AnalyseAsWritten(records) == None && AnalyseCorrected(records) == Ranking([], [])
    ensures AnalyseAsWritten(other) == Some(AnalyseCorrected(other))
  {
  }

  lemma ExampleFirstSeen(a: string, b: string, senders: seq<Option<string>>)
    requires a != b && senders == [Some(a), None, Some(b), Some(a)]
    ensures FirstSeen(senders) == [Some(a), None, Some(b)]
  {
    assert senders[..3] == [Some(a), None, Some(b)];
    assert [Some(a), None, Some(b)][..2] == [Some(a), None];
    assert [Some(a), None][..1] == [Some(a)];
    assert FirstSeen([Some(a)]) == [Some(a)];
    assert FirstSeen([Some(a), None]) == [Some(a), None];
    assert FirstSeen([Some(a), None, Some(b)]) == [Some(a), None, Some(b)];
  }

  lemma ExampleCounts(a: string, b: string, senders: seq<Option<string>>)
    requires a != b && senders == [Some(a), None, Some(b), Some(a)]
    ensures multiset(senders)[Some(a)] == 2 && multiset(senders)[Some(b)] == 1 && multiset(senders)[None] == 1
  {
    assert multiset(senders) == multiset{Some(a), Some(a), None, Some(b)};
  }

  lemma PivotOfThree(senders: seq<Option<string>>, k0: Option<string>, k1: Option<string>, k2: Option<string>)
    requires FirstSeen(senders) == [k0, k1, k2]
    ensures Pivot(senders)
      == [Row(k0, multiset(senders)[k0]), Row(k1, multiset(senders)[k1]), Row(k2, multiset(senders)[k2])]
  {
  }

  lemma ExampleOrder(a: string, b: string, rows: seq<Row>)
    requires rows == [Row(Some(a), 2), Row(Some(b), 1)]
    ensures OrderByCount(rows) == rows
  {
    assert rows[..1] == [Row(Some(a), 2)];
    assert OrderByCount([Row(Some(a), 2)]) == [Row(Some(a), 2)];
  }

  lemma ExamplePivot(a: string, b: string, senders: seq<Option<string>>)
    requires a != b && senders == [Some(a), None, Some(b), Some(a)]
    ensures Pivot(senders) == [Row(Some(a), 2), Row(None, 1), Row(Some(b), 1)]
  {
    ExampleFirstSeen(a, b, senders);
    ExampleCounts(a, b, senders);
    PivotOfThree(senders, Some(a), None, Some(b));
  }

  lemma ExampleWhere(a: string, b: string, pivot: seq<Row>)
    requires pivot == [Row(Some(a), 2), Row(None, 1), Row(Some(b), 1)]
    ensures Where(pivot) == [Row(Some(a), 2), Row(Some(b), 1)]
  {
    assert pivot[1..] == [Row(None, 1), Row(Some(b), 1)];
    assert pivot[1..][1..] == [Row(Some(b), 1)];
    assert Where([Row(Some(b), 1)]) == [Row(Some(b), 1)] + Where([]);
    assert Where(pivot[1..]) == [] + [Row(Some(b), 1)];
  }

  /** Two messages from `a`, one from `b` after them, one without a sender: `a` leads with 2. */
  lemma TopRowsExample(a: string, b: string, senders: seq<Option<string>>)
    requires a != b && senders == [Some(a), None, Some(b), Some(a)]
    ensures TopRows(senders) == [Row(Some(a), 2), Row(Some(b), 1)]
  {
    ExamplePivot(a, b, senders);
    ExampleWhere(a, b, Pivot(senders));
    ExampleOrder(a, b, Where(Pivot(senders)));
  }
}
