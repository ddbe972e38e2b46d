/** The full-text search helpers of fts.go: facet ordering and sorting,
    facet counting, the small slice conversions, and the update-else-insert
    Put of documents. The FTS5 engine itself (matching, ranking, snippets)
    is not modelled; what a query answers is a parameter. */
module Fts {
  import opened Common
  import opened Strs
  import opened Sorting

  datatype FacetValueCount = FacetValueCount(value: string, count: int)

  datatype FacetCount = FacetCount(name: string, values: seq<FacetValueCount>)

  // -----------------------------------------------------------------------
  // OrderFacetsByNames (fts.go:216-242).

  /** orderMap: each name of `order` to the LAST index it appears at, as the
      loop at fts.go:218-220 leaves it. */
  function OrderMap(order: seq<string>): (m: map<string, nat>)
    ensures forall name :: name in m <==> name in order
    ensures forall name :: name in m ==>
      && m[name] < |order| && order[m[name]] == name
      && forall j :: m[name] < j < |order| ==> order[j] != name
  {
    if order == [] then map[]
    else
      var n := |order| - 1;
      var m := OrderMap(order[..n]);
      assert forall name :: name in order <==> name in order[..n] || name == order[n] by {
        assert order == order[..n] + [order[n]];
      }
      m[order[n] := n]
  }

  /** The sort key of a facet: its index if its name is in the order,
      otherwise its name. */
  datatype Rank = Ranked(index: nat) | Unranked(name: string)

  function RankIn(orderMap: map<string, nat>, name: string): Rank {
    if name in orderMap then Ranked(orderMap[name]) else Unranked(name)
  }

  function RankKey(orderMap: map<string, nat>): FacetCount -> Rank {
    (f: FacetCount) => RankIn(orderMap, f.name)
  }

  /** The comparison of fts.go:225-239 on keys: ranked before unranked,
      ranked by index, unranked by name. */
  predicate RankLess(a: Rank, b: Rank) {
    match (a, b)
    case (Ranked(i), Ranked(j)) => i < j
    case (Ranked(_), Unranked(_)) => true
    case (Unranked(_), Ranked(_)) => false
    case (Unranked(x), Unranked(y)) => Less(x, y)
  }

  lemma RankLessIsStrictTotalOrder()
    ensures StrictTotalOrder(RankLess)
  {
    forall a: Rank ensures !RankLess(a, a) {
      if a.Unranked? { LessIrreflexive(a.name); }
    }
    forall a: Rank, b: Rank, c: Rank | RankLess(a, b) && RankLess(b, c) ensures RankLess(a, c) {
      if a.Unranked? { LessTransitive(a.name, b.name, c.name); }
    }
    forall a: Rank, b: Rank ensures a == b || RankLess(a, b) || RankLess(b, a) {
      if a.Unranked? && b.Unranked? { LessTotal(a.name, b.name); }
    }
  }

  /** What OrderFacetsByNames returns: a stable sort of a copy. */
  function OrderedFacets(facets: seq<FacetCount>, order: seq<string>): seq<FacetCount> {
    SortBy(facets, RankKey(OrderMap(order)), RankLess)
  }

  /** OrderFacetsByNames builds the order map with a loop and sorts a copy
      of `facets`; the caller's slice is a value here and is untouched. */
  method OrderFacetsByNames(facets: seq<FacetCount>, order: seq<string>) returns (sorted: seq<FacetCount>)
    ensures sorted == OrderedFacets(facets, order)
  {
    var orderMap: map<string, nat> := map[];
    var i := 0;
    while i < |order|
      invariant 0 <= i <= |order|
      invariant orderMap == OrderMap(order[..i])
    {
      assert order[..i + 1][..i] == order[..i];
      orderMap := orderMap[order[i] := i];
      i := i + 1;
    }
    assert order[..i] == order;
    sorted := SortBy(facets, RankKey(orderMap), RankLess);
  }

  /** The result is a permutation of the input; facets named in `order`
      come first, by their (last) position in `order`; the others follow in
      ascending name order; and facets with the same name keep their input
      order (fts.go:222-239). */
  lemma OrderedFacetsSpec(facets: seq<FacetCount>, order: seq<string>)
    ensures var r := OrderedFacets(facets, order);
      var m := OrderMap(order);
      && multiset(r) == multiset(facets)
      && (forall i, j :: 0 <= i < j < |r| && r[j].name in order ==> r[i].name in order)
      && (forall i, j :: 0 <= i < j < |r| && r[i].name in order && r[j].name in order ==>
            m[r[i].name] <= m[r[j].name])
      && (forall i, j :: 0 <= i < j < |r| && r[i].name !in order && r[j].name !in order ==>
            LessEq(r[i].name, r[j].name))
      && (forall name :: WithKey(r, RankKey(m), RankIn(m, name)) == WithKey(facets, RankKey(m), RankIn(m, name)))
  {
    var m := OrderMap(order);
    var key := RankKey(m);
    var r := OrderedFacets(facets, order);
    RankLessIsStrictTotalOrder();
    SortByPermutes(facets, key, RankLess);
    SortBySorted(facets, key, RankLess);
    forall i, j | 0 <= i < j < |r| && r[i].name !in order && r[j].name !in order
      ensures LessEq(r[i].name, r[j].name)
    {
      assert !RankLess(key(r[j]), key(r[i]));
      LessTotal(r[i].name, r[j].name);
    }
    forall name ensures WithKey(r, key, RankIn(m, name)) == WithKey(facets, key, RankIn(m, name)) {
      SortByStable(facets, key, RankLess, RankIn(m, name));
    }
  }

  /** Two facets have the same key exactly when they have the same name, so
      the stability above is stability per name. */
  lemma RankInInjective(order: seq<string>, a: string, b: string)
    ensures RankIn(OrderMap(order), a) == RankIn(OrderMap(order), b) <==> a == b
  {
  }

  // -----------------------------------------------------------------------
  // SortFacetsByTotalDocCount (fts.go:203-214).

  /** The sum of the counts, accumulated front to back. */
  function Total(values: seq<FacetValueCount>): int {
    if values == [] then 0 else Total(values[..|values| - 1]) + values[|values| - 1].count
  }

  /** The summing loop of the comparison (fts.go:205-211). */
  method SumCounts(values: seq<FacetValueCount>) returns (total: int)
    ensures total == Total(values)
  {
    total := 0;
    var i := 0;
    while i < |values|
      invariant 0 <= i <= |values|
      invariant total == Total(values[..i])
    {
      assert values[..i + 1][..i] == values[..i];
      total := total + values[i].count;
      i := i + 1;
    }
    assert values[..i] == values;
  }

  /** The summed count of a facet, the key of the sort. */
  function Weight(f: FacetCount): int {
    Total(f.values)
  }

  ghost predicate NonIncreasing(a: seq<FacetCount>) {
    forall p, q :: 0 <= p < q < |a| ==> Weight(a[p]) >= Weight(a[q])
  }

  /** Sorts in place so that the summed counts do not increase; sort.Slice
      is not stable, so nothing is promised about ties. */
  method SortFacetsByTotalDocCount(facets: array<FacetCount>)
    modifies facets
    ensures NonIncreasing(facets[..])
    ensures multiset(facets[..]) == multiset(old(facets[..]))
  {
    var i := 0;
    while i < facets.Length
      invariant 0 <= i <= facets.Length
      invariant NonIncreasing(facets[..i])
      invariant multiset(facets[..]) == multiset(old(facets[..]))
    {
      InsertDown(facets, i);
      i := i + 1;
    }
    assert facets[..i] == facets[..];
  }

  /** Within s[..i+1], every pair not involving position j is in order. */
  ghost predicate OrderedBut(s: seq<FacetCount>, i: int, j: int)
    requires 0 <= j <= i < |s|
  {
    forall p, q :: 0 <= p < q <= i && p != j && q != j ==> Weight(s[p]) >= Weight(s[q])
  }

  /** s[j] weighs more than everything after it up to position i. */
  ghost predicate AboveAfter(s: seq<FacetCount>, i: int, j: int)
    requires 0 <= j <= i < |s|
  {
    forall q :: j < q <= i ==> Weight(s[j]) > Weight(s[q])
  }

  /** Swapping a heavier s[j] with s[j-1] moves the gap down by one. */
  lemma SwapStep(s: seq<FacetCount>, t: seq<FacetCount>, i: int, j: int)
    requires 0 < j <= i < |s| && t == s[j - 1 := s[j]][j := s[j - 1]]
    requires OrderedBut(s, i, j) && AboveAfter(s, i, j)
    requires Weight(s[j - 1]) < Weight(s[j])
    ensures OrderedBut(t, i, j - 1) && AboveAfter(t, i, j - 1)
  {
  }

  /** Once s[j] is no heavier than s[j-1] (or j is 0), s[..i+1] is in order. */
  lemma InsertDone(s: seq<FacetCount>, i: int, j: int)
    requires 0 <= j <= i < |s|
    requires OrderedBut(s, i, j) && AboveAfter(s, i, j)
    requires j > 0 ==> Weight(s[j - 1]) >= Weight(s[j])
    ensures NonIncreasing(s[..i + 1])
  {
    forall p, q | 0 <= p < q <= i ensures Weight(s[p]) >= Weight(s[q]) {
      if q == j && p < j - 1 {
        assert Weight(s[p]) >= Weight(s[j - 1]);
      }
    }
  }

  /** Moves facets[i] down into the non-increasing prefix before it. */
  method InsertDown(a: array<FacetCount>, i: int)
    requires 0 <= i < a.Length
    requires NonIncreasing(a[..i])
    modifies a
    ensures NonIncreasing(a[..i + 1])
    ensures multiset(a[..]) == multiset(old(a[..]))
  {
    var j := i;
    assert OrderedBut(a[..], i, j) by {
      forall p, q | 0 <= p < q <= i && p != j && q != j ensures Weight(a[..][p]) >= Weight(a[..][q]) {
        assert a[..i][p] == a[p] && a[..i][q] == a[q];
      }
    }
    while j > 0
      invariant 0 <= j <= i
      invariant OrderedBut(a[..], i, j) && AboveAfter(a[..], i, j)
      invariant multiset(a[..]) == multiset(old(a[..]))
    {
      var before := SumCounts(a[j - 1].values);
      var here := SumCounts(a[j].values);
      if before >= here {
        InsertDone(a[..], i, j);
        return;
      }
      ghost var s := a[..];
      Swap(a, j - 1, j);
      SwapStep(s, a[..], i, j);
      j := j - 1;
    }
    InsertDone(a[..], i, j);
  }

  method Swap(a: array<FacetCount>, p: int, q: int)
    requires 0 <= p < q < a.Length
    modifies a
    ensures a[..] == old(a[..])[p := old(a[q])][q := old(a[p])]
    ensures multiset(a[..]) == multiset(old(a[..]))
  {
    a[p], a[q] := a[q], a[p];
  }

  // -----------------------------------------------------------------------
  // GetFacetCounts (fts.go:170-201).

  /** strings.Repeat("?,", n-1) + "?". */
  function Placeholders(n: nat): (r: string)
    requires n >= 1
    ensures |r| == 2 * n - 1
    ensures forall i :: 0 <= i < |r| ==> r[i] == if i % 2 == 0 then '?' else ','
  {
    if n == 1 then "?" else "?," + Placeholders(n - 1)
  }

  /** A result row of the facet query: name, value and count. */
  datatype CountRow = CountRow(name: string, value: string, count: int)

  /** The values recorded for `name` by the grouping loop over `rows`, in
      row order. */
  function ValuesFor(rows: seq<CountRow>, name: string): seq<FacetValueCount> {
    if rows == [] then []
    else
      var last := rows[|rows| - 1];
      ValuesFor(rows[..|rows| - 1], name) + (if last.name == name then [FacetValueCount(last.value, last.count)] else [])
  }

  function Names(rows: seq<CountRow>): set<string> {
    set r | r in rows :: r.name
  }

  /** The first row whose `rows.Scan` fails, and the error it reports. */
  datatype ScanError = ScanError(row: nat, error: Error)

  /** Whether the scan fails on one of the first `n` rows. */
  predicate ScanFails(scan: Option<ScanError>, n: nat) {
    scan.Some? && scan.value.row < n
  }

  /** GetFacetCounts. With no document ids it answers an empty list without
      querying (`placeholders` is None); otherwise it queries with one "?"
      per id and groups the rows by name, each name once with its values in
      row order. `answer` is the query's result; the cursor yields only
      `Delivered(answer, stop)` of it when it fails after `stop` rows, which
      goes unnoticed because `rows.Err()` is never consulted. A failing
      `rows.Scan` returns its error and no facets. The order of the groups is
      Go's map iteration order, which is unspecified; here it is any order. */
  method GetFacetCounts(docIDs: seq<string>, query: Outcome, answer: seq<CountRow>, stop: Option<nat>, scan: Option<ScanError>)
    returns (placeholders: Option<string>, result: seq<FacetCount>, err: Option<Error>)
    ensures docIDs == [] ==> placeholders == None && result == [] && err == None
    ensures docIDs != [] ==> placeholders == Some(Placeholders(|docIDs|))
    ensures docIDs != [] && query.Fail? ==> result == [] && err == Some(query.error)
    ensures docIDs != [] && query.Pass? && ScanFails(scan, |Delivered(answer, stop)|) ==>
      result == [] && err == Some(scan.value.error)
    ensures docIDs != [] && query.Pass? && !ScanFails(scan, |Delivered(answer, stop)|) ==>
      var seen := Delivered(answer, stop);
      && err == None
      && (forall i, j :: 0 <= i < j < |result| ==> result[i].name != result[j].name)
      && (forall name :: name in Names(seen) <==> exists i :: 0 <= i < |result| && result[i].name == name)
      && (forall i :: 0 <= i < |result| ==> result[i].values == ValuesFor(seen, result[i].name))
  {
    if |docIDs| == 0 {
      return None, [], None;
    }
    placeholders := Some(Placeholders(|docIDs|));
    if query.Fail? {
      return placeholders, [], Some(query.error);
    }
    var grouped;
    grouped, err := GroupByName(Delivered(answer, stop), scan);
    if err.Some? {
      return placeholders, [], err;
    }
    result := Groups(grouped);
  }

  /** The grouping loop (fts.go:184-193): each name's values in row order,
      unless the scan of a row fails, which ends the loop with its error. */
  method GroupByName(answer: seq<CountRow>, scan: Option<ScanError>)
    returns (grouped: map<string, seq<FacetValueCount>>, err: Option<Error>)
    ensures ScanFails(scan, |answer|) ==> err == Some(scan.value.error)
    ensures !ScanFails(scan, |answer|) ==> err == None && grouped.Keys == Names(answer)
    ensures !ScanFails(scan, |answer|) ==>
      forall name :: name in grouped ==> grouped[name] == ValuesFor(answer, name)
  {
    grouped := map[];
    var i := 0;
    while i < |answer|
      invariant 0 <= i <= |answer|
      invariant !ScanFails(scan, i)
      invariant grouped.Keys == Names(answer[..i])
      invariant forall name :: name in grouped ==> grouped[name] == ValuesFor(answer[..i], name)
    {
      if scan.Some? && scan.value.row == i {
        return grouped, Some(scan.value.error);
      }
      var row := answer[i];
      assert answer[..i + 1][..i] == answer[..i];
      assert answer[..i + 1] == answer[..i] + [row];
      var sofar := if row.name in grouped then grouped[row.name] else [];
      assert sofar == ValuesFor(answer[..i], row.name) by {
        if row.name !in grouped { NoValuesWithoutName(answer[..i], row.name); }
      }
      grouped := grouped[row.name := sofar + [FacetValueCount(row.value, row.count)]];
      i := i + 1;
    }
    assert answer[..i] == answer;
    err := None;
  }

  /** The loop over the map (fts.go:195-198): each name once, in any order. */
  method Groups(grouped: map<string, seq<FacetValueCount>>) returns (result: seq<FacetCount>)
    ensures forall i, j :: 0 <= i < j < |result| ==> result[i].name != result[j].name
    ensures forall name :: name in grouped <==> exists i :: 0 <= i < |result| && result[i].name == name
    ensures forall i :: 0 <= i < |result| ==> result[i].name in grouped && result[i].values == grouped[result[i].name]
  {
    result := [];
    var remaining := grouped.Keys;
    ghost var at: map<string, nat> := map[];
    while remaining != {}
      invariant remaining <= grouped.Keys
      invariant forall i :: 0 <= i < |result| ==>
        result[i].name in grouped && result[i].name !in remaining && result[i].values == grouped[result[i].name]
      invariant forall name :: name in grouped && name !in remaining ==>
        name in at && at[name] < |result| && result[at[name]].name == name
      invariant forall i, j :: 0 <= i < j < |result| ==> result[i].name != result[j].name
      decreases |remaining|
    {
      var name :| name in remaining;
      ghost var prev := result;
      ghost var before := remaining;
      result := result + [FacetCount(name, grouped[name])];
      remaining := remaining - {name};
      at := at[name := |prev|];
      assert forall n :: n in grouped && n !in remaining ==> n in at && at[n] < |result| && result[at[n]].name == n by {
        forall n | n in grouped && n !in remaining ensures n in at && at[n] < |result| && result[at[n]].name == n {
          if n != name {
            assert n !in before;
            assert result[at[n]] == prev[at[n]];
          }
        }
      }
      assert forall i :: 0 <= i < |result| ==>
        result[i].name in grouped && result[i].name !in remaining && result[i].values == grouped[result[i].name]
      by {
        forall i | 0 <= i < |result|
          ensures result[i].name in grouped && result[i].name !in remaining && result[i].values == grouped[result[i].name]
        {
          if i < |prev| { assert result[i] == prev[i]; }
        }
      }
      assert forall i, j :: 0 <= i < j < |result| ==> result[i].name != result[j].name by {
        forall i, j | 0 <= i < j < |result| ensures result[i].name != result[j].name {
          assert result[i] == prev[i];
          if j == |prev| {
            assert prev[i].name !in before;
          } else {
            assert result[j] == prev[j];
          }
        }
      }
    }
    forall name | name in grouped ensures exists i :: 0 <= i < |result| && result[i].name == name {
      assert result[at[name]].name == name;
    }
  }

  lemma {:induction false} NoValuesWithoutName(rows: seq<CountRow>, name: string)
    requires name !in Names(rows)
    ensures ValuesFor(rows, name) == []
  {
    if rows != [] {
      var n := |rows| - 1;
      assert rows[n] in rows;
      assert Names(rows[..n]) <= Names(rows) by {
        forall x | x in Names(rows[..n]) ensures x in Names(rows) {
          var r :| r in rows[..n] && r.name == x;
          assert r in rows;
        }
      }
      NoValuesWithoutName(rows[..n], name);
    }
  }

  // -----------------------------------------------------------------------
  // stringsToInterfaces and getDocIDsFromSearchResults (fts.go:244-259).

  /** A string boxed in an interface{}. */
  datatype Arg = StringArg(s: string)

  method StringsToInterfaces(strs: seq<string>) returns (args: array<Arg>)
    ensures args.Length == |strs|
    ensures forall i :: 0 <= i < |strs| ==> args[i] == StringArg(strs[i])
  {
    args := new Arg[|strs|](_ => StringArg(""));
    var i := 0;
    while i < |strs|
      invariant 0 <= i <= |strs|
      invariant forall j :: 0 <= j < i ==> args[j] == StringArg(strs[j])
    {
      args[i] := StringArg(strs[i]);
      i := i + 1;
    }
  }

  /** The "docid" of each result in order; a result without one gives "". */
  method GetDocIDsFromSearchResults(results: seq<map<string, string>>) returns (docIDs: seq<string>)
    ensures |docIDs| == |results|
    ensures forall i :: 0 <= i < |results| ==>
      docIDs[i] == if "docid" in results[i] then results[i]["docid"] else ""
  {
    docIDs := [];
    var i := 0;
    while i < |results|
      invariant 0 <= i <= |results| && |docIDs| == i
      invariant forall j :: 0 <= j < i ==>
        docIDs[j] == if "docid" in results[j] then results[j]["docid"] else ""
    {
      var id := if "docid" in results[i] then results[i]["docid"] else "";
      docIDs := docIDs + [id];
      i := i + 1;
    }
  }

  // -----------------------------------------------------------------------
  // The documents table and Put (fts.go:60-93).

  /** A row of the FTS5 `documents` table. Nothing makes docid unique. */
  datatype Document = Document(docid: string, content: string)

  function CountDocid(docs: seq<Document>, docid: string): nat {
    if docs == [] then 0
    else CountDocid(docs[..|docs| - 1], docid) + (if docs[|docs| - 1].docid == docid then 1 else 0)
  }

  /** `UPDATE documents SET content = ? WHERE docid = ?`. */
  function SetContent(docs: seq<Document>, docid: string, content: string): (r: seq<Document>)
    ensures |r| == |docs|
    ensures forall i :: 0 <= i < |r| ==> r[i].docid == docs[i].docid
    ensures forall i :: 0 <= i < |r| ==> r[i].content == if docs[i].docid == docid then content else docs[i].content
  {
    seq(|docs|, i requires 0 <= i < |docs| =>
      if docs[i].docid == docid then Document(docid, content) else docs[i])
  }

  class DocumentStore {
    var docs: seq<Document>

    constructor ()
      ensures docs == []
    {
      docs := [];
    }

    /** Put: updates every document with this docid, and inserts one only
        when the update touched no row. `content` is what was read from the
        reader and `read` whether reading it failed, in which case nothing is
        written; `write` is what the database answers. */
    method Put(docid: string, content: string, read: Outcome, write: Outcome) returns (err: Option<Error>)
      modifies this
      ensures read.Fail? ==> err == Some(read.error) && docs == old(docs)
      ensures read.Pass? && write.Fail? ==> err == Some(write.error) && docs == old(docs)
      ensures read.Pass? && write.Pass? && CountDocid(old(docs), docid) > 0 ==>
        err == None && docs == SetContent(old(docs), docid, content)
      ensures read.Pass? && write.Pass? && CountDocid(old(docs), docid) == 0 ==>
        err == None && docs == old(docs) + [Document(docid, content)]
    {
      if read.Fail? {
        return Some(read.error);
      }
      if write.Fail? {
        return Some(write.error);
      }
      var affected := CountDocid(docs, docid);
      if affected == 0 {
        CountDocidZero(docs, docid);
        assert SetContent(docs, docid, content) == docs;
      }
      docs := SetContent(docs, docid, content);
      if affected == 0 {
        docs := docs + [Document(docid, content)];
      }
      err := None;
    }
  }

  lemma {:induction false} CountDocidZero(docs: seq<Document>, docid: string)
    ensures CountDocid(docs, docid) == 0 <==> forall i :: 0 <= i < |docs| ==> docs[i].docid != docid
  {
    if docs != [] {
      var n := |docs| - 1;
      CountDocidZero(docs[..n], docid);
      assert forall i :: 0 <= i < n ==> docs[..n][i] == docs[i];
    }
  }

  /** After a Put the docid is present, every document with it holds the
      new content, and every other document is as it was; no second copy
      is ever made (fts.go:69-86). */
  lemma PutContents(docs: seq<Document>, docid: string, content: string)
    ensures var after := if CountDocid(docs, docid) > 0 then SetContent(docs, docid, content)
                         else docs + [Document(docid, content)];
      && (exists i :: 0 <= i < |after| && after[i].docid == docid)
      && (forall i :: 0 <= i < |after| && after[i].docid == docid ==> after[i].content == content)
      && (forall i :: 0 <= i < |docs| && docs[i].docid != docid ==> after[i] == docs[i])
      && CountDocid(after, docid) == if CountDocid(docs, docid) > 0 then CountDocid(docs, docid) else 1
  {
    CountDocidZero(docs, docid);
    var after := if CountDocid(docs, docid) > 0 then SetContent(docs, docid, content)
                 else docs + [Document(docid, content)];
    if CountDocid(docs, docid) > 0 {
      var i :| 0 <= i < |docs| && docs[i].docid == docid;
      assert after[i].docid == docid;
      SetContentCount(docs, docid, content);
    } else {
      assert after[|docs|].docid == docid;
      assert after[..|docs|] == docs;
    }
  }

  lemma {:induction false} SetContentCount(docs: seq<Document>, docid: string, content: string)
    ensures CountDocid(SetContent(docs, docid, content), docid) == CountDocid(docs, docid)
  {
    if docs != [] {
      var n := |docs| - 1;
      SetContentCount(docs[..n], docid, content);
      assert SetContent(docs, docid, content)[..n] == SetContent(docs[..n], docid, content);
    }
  }
}
