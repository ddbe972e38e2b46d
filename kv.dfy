/** The key-value store of kv.go: one table keyed by (pk, sk) holding a JSON
    object and an optional expiry in whole Unix seconds. The SQL statements
    are modelled by what they do to the table; the current time is a
    parameter, and what the database answers to a write is an `Outcome`. */
module KV {
  import opened Common
  import opened Strs

  // -----------------------------------------------------------------------
  // JSONValue (kv.go:16-50).

  /** A Go value held in a JSONValue: a float64 (by its bit pattern; no
      arithmetic is done on it), a string, or a value of any other type. */
  datatype AnyValue = Float64(bits: int) | Str(text: string) | Other(typeName: string)

  type JSONValue = map<string, AnyValue>

  predicate Storable(v: AnyValue) {
    v.Float64? || v.Str?
  }

  predicate AllStorable(j: JSONValue) {
    forall k :: k in j ==> Storable(j[k])
  }

  /** A member of the JSON object json.Marshal writes: a number or a string. */
  datatype Scalar = Number(bits: int) | Text(text: string)

  /** The JSON object text, by its members. */
  type Document = map<string, Scalar>

  function AsScalar(v: AnyValue): Scalar
    requires Storable(v)
  {
    if v.Float64? then Number(v.bits) else Text(v.text)
  }

  /** What json.Unmarshal into a map[string]interface{} makes of a member. */
  function AsValue(s: Scalar): AnyValue {
    if s.Number? then Float64(s.bits) else Str(s.text)
  }

  /** json.Unmarshal of a document into a map[string]interface{}. */
  function Decode(doc: Document): (j: JSONValue)
    ensures j.Keys == doc.Keys && AllStorable(j)
  {
    map k | k in doc :: AsValue(doc[k])
  }

  /** The exponent field of a float64 bit pattern is all ones exactly for
      NaN and the two infinities, which JSON cannot write. */
  predicate Finite(v: AnyValue) {
    v.Float64? ==> (v.bits / 0x10_0000_0000_0000) % 0x800 != 0x7FF
  }

  predicate AllFinite(j: JSONValue) {
    forall k :: k in j ==> Finite(j[k])
  }

  /** MarshalJSON (kv.go:20-31): a value that is neither a float64 nor a
      string fails the type check with the invalid-value error; otherwise
      json.Marshal refuses NaN and the infinities; otherwise the object
      holds every key. */
  function MarshalJSON(j: JSONValue): (r: Result<Document>)
    ensures r.Ok? <==> AllStorable(j) && AllFinite(j)
    ensures !AllStorable(j) ==> r == Err(InvalidJSONValue)
    ensures AllStorable(j) && !AllFinite(j) ==> r == Err(UnsupportedValue)
    ensures r.Ok? ==> r.value.Keys == j.Keys
  {
    if !AllStorable(j) then Err(InvalidJSONValue)
    else if !AllFinite(j) then Err(UnsupportedValue)
    else Ok(map k | k in j :: AsScalar(j[k]))
  }

  /** A NaN (and likewise an infinity) passes the type check but not
      json.Marshal, so Put and Create refuse it. */
  lemma NaNRefused(k: string)
    ensures MarshalJSON(map[k := Float64(0x7FF8_0000_0000_0000)]) == Err(UnsupportedValue)
  {
    var j := map[k := Float64(0x7FF8_0000_0000_0000)];
    assert !Finite(j[k]);
  }

  /** UnmarshalJSON (kv.go:34-50) on receiver `j`, given what json.Unmarshal
      decoded from the bytes: the new receiver and the error. The receiver
      changes only on success, and only to a map of float64s and strings. */
  function UnmarshalJSON(j: JSONValue, decoded: Result<JSONValue>): (r: (JSONValue, Option<Error>))
    ensures r.1.None? <==> decoded.Ok? && AllStorable(decoded.value)
    ensures r.1.None? ==> r.0 == decoded.value
    ensures r.1.Some? ==> r.0 == j
    ensures decoded.Err? ==> r.1 == Some(decoded.error)
  {
    if decoded.Err? then (j, Some(decoded.error))
    else if AllStorable(decoded.value) then (decoded.value, None)
    else (j, Some(InvalidJSONValue))
  }

  /** A value that marshals decodes back to itself, whatever the receiver
      held before. */
  lemma MarshalUnmarshalRoundTrip(j: JSONValue, receiver: JSONValue)
    requires MarshalJSON(j).Ok?
    ensures UnmarshalJSON(receiver, Ok(Decode(MarshalJSON(j).value))) == (j, None)
  {
    var d := Decode(MarshalJSON(j).value);
    forall k | k in j ensures d[k] == j[k] {
    }
    assert d == j;
  }

  // -----------------------------------------------------------------------
  // Time: a time.Time is nanoseconds since the Unix epoch.

  const NanosPerSecond: int := 1_000_000_000

  /** time.Time.Unix(): whole seconds, rounded down. */
  function UnixSeconds(t: int): (sec: int)
    ensures sec * NanosPerSecond <= t < sec * NanosPerSecond + NanosPerSecond
  {
    t / NanosPerSecond
  }

  /** The `expires` column written for an optional expiry (kv.go:147-151). */
  function ExpiresColumn(expires: Option<int>): (r: Option<int>)
    ensures r.Some? <==> expires.Some?
    ensures r.Some? ==> r.value == UnixSeconds(expires.value)
  {
    if expires.None? then None else Some(UnixSeconds(expires.value))
  }

  /** time.Unix(sec, 0) for a non-NULL column (kv.go:229-233, 307-310). */
  function ExpiresTime(column: Option<int>): (r: Option<int>)
    ensures r.Some? <==> column.Some?
    ensures r.Some? ==> r.value % NanosPerSecond == 0 && r.value / NanosPerSecond == column.value
  {
    if column.None? then None else Some(column.value * NanosPerSecond)
  }

  /** Reading back a written expiry truncates it to the whole second
      (kv_test.go:71-86). */
  lemma ExpiryTruncatesToSeconds(expires: Option<int>)
    ensures var back := ExpiresTime(ExpiresColumn(expires));
      && (back.Some? <==> expires.Some?)
      && (back.Some? ==> back.value <= expires.value < back.value + NanosPerSecond)
      && (back.Some? && expires.value % NanosPerSecond == 0 ==> back == expires)
  {
  }

  // -----------------------------------------------------------------------
  // The table.

  datatype Entry = Entry(data: Document, expires: Option<int>)

  type Table = map<(string, string), Entry>

  /** `expires IS NULL OR expires > now` (kv.go:211, 276, 283). */
  predicate Live(e: Entry, now: int) {
    e.expires.None? || e.expires.value > now
  }

  /** `expires IS NOT NULL AND expires < now` (kv.go:122). */
  predicate Expired(e: Entry, now: int) {
    e.expires.Some? && e.expires.value < now
  }

  /** Get's query (kv.go:207-236): no matching row when the key is absent or
      its expiry is not after `now`; otherwise the decoded data and the
      expiry as a time. */
  function Lookup(t: Table, pk: string, sk: string, now: int): (r: Result<(JSONValue, Option<int>)>)
    ensures r.Ok? <==> (pk, sk) in t && Live(t[(pk, sk)], now)
    ensures r.Err? ==> r.error == NoMatchingRow
  {
    if (pk, sk) in t && Live(t[(pk, sk)], now) then
      var e := t[(pk, sk)];
      Ok((Decode(e.data), ExpiresTime(e.expires)))
    else Err(NoMatchingRow)
  }

  /** The cleanup statement (kv.go:122): drops exactly the rows whose expiry
      is before `now`. */
  function Cleaned(t: Table, now: int): (r: Table)
    ensures forall k :: k in r <==> k in t && !Expired(t[k], now)
    ensures forall k :: k in r ==> r[k] == t[k]
  {
    map k | k in t && !Expired(t[k], now) :: t[k]
  }

  /** A Put followed by a Get of the same key yields the data that was put
      and its expiry truncated to the second, unless that expiry is not
      after `now` (kv_test.go:60-87, 121-138). */
  lemma PutThenGet(t: Table, pk: string, sk: string, j: JSONValue, expires: Option<int>, now: int)
    requires MarshalJSON(j).Ok?
    ensures var u := t[(pk, sk) := Entry(MarshalJSON(j).value, ExpiresColumn(expires))];
      Lookup(u, pk, sk, now) ==
        if expires.Some? && UnixSeconds(expires.value) <= now then Err(NoMatchingRow)
        else Ok((j, ExpiresTime(ExpiresColumn(expires))))
  {
    MarshalUnmarshalRoundTrip(j, j);
  }

  /** Writing or deleting one key changes what Get returns for no other key. */
  lemma OtherKeysUnaffected(t: Table, pk: string, sk: string, e: Entry, pk2: string, sk2: string, now: int)
    requires (pk, sk) != (pk2, sk2)
    ensures Lookup(t[(pk, sk) := e], pk2, sk2, now) == Lookup(t, pk2, sk2, now)
    ensures Lookup(t - {(pk, sk)}, pk2, sk2, now) == Lookup(t, pk2, sk2, now)
  {
  }

  /** After a Delete, Get reports no matching row (kv_test.go:188-212). */
  lemma DeleteThenGet(t: Table, pk: string, sk: string, now: int)
    ensures Lookup(t - {(pk, sk)}, pk, sk, now) == Err(NoMatchingRow)
  {
  }

  /** Cleanup removes nothing a Get at that time or later could see. */
  lemma CleanupInvisible(t: Table, now: int, later: int, pk: string, sk: string)
    requires now <= later
    ensures Lookup(Cleaned(t, now), pk, sk, later) == Lookup(t, pk, sk, later)
  {
  }

  // -----------------------------------------------------------------------
  // Iterate's query (kv.go:268-287).

  /** The sort-key condition: none when `start` is "", otherwise `sk > start`
      when `after` and `sk >= start` when not. */
  predicate InRange(sk: string, start: string, after: bool) {
    start == "" || (if after then Less(start, sk) else LessEq(start, sk))
  }

  /** The sort keys of the live rows of `pk` in range. */
  function Matching(t: Table, pk: string, start: string, after: bool, now: int): set<string> {
    set k | k in t && k.0 == pk && Live(t[k], now) && InRange(k.1, start, after) :: k.1
  }

  predicate Ascending(s: seq<string>) {
    forall i, j :: 0 <= i < j < |s| ==> Less(s[i], s[j])
  }

  lemma {:induction false} LeastOf(s: set<string>) returns (m: string)
    requires s != {}
    ensures m in s && forall x :: x in s ==> LessEq(m, x)
    decreases |s|
  {
    var y :| y in s;
    if s - {y} == {} {
      m := y;
      forall x | x in s ensures LessEq(y, x) {
        assert x == y || x in s - {y};
      }
    } else {
      var m' := LeastOf(s - {y});
      LessTotal(m', y);
      if Less(y, m') {
        m := y;
        forall x | x in s ensures LessEq(y, x) {
          if x != y && x != m' {
            assert x in s - {y};
            LessTransitive(y, m', x);
          }
        }
      } else {
        m := m';
        forall x | x in s ensures LessEq(m', x) {
          if x != y { assert x in s - {y}; }
        }
      }
    }
  }

  lemma LeastExists(s: set<string>)
    requires s != {}
    ensures exists m :: m in s && forall x :: x in s ==> LessEq(m, x)
  {
    var m := LeastOf(s);
  }

  lemma LessEqAntisymmetric()
    ensures forall a, b :: LessEq(a, b) && LessEq(b, a) ==> a == b
  {
    forall a, b | LessEq(a, b) && LessEq(b, a) ensures a == b {
      if a != b {
        LessAsymmetric(a, b);
      }
    }
  }

  /** The least string of a non-empty set. */
  function Least(s: set<string>): (m: string)
    requires s != {}
    ensures m in s && forall x :: x in s ==> LessEq(m, x)
  {
    LeastExists(s);
    LessEqAntisymmetric();
    var m :| m in s && forall x :: x in s ==> LessEq(m, x);
    m
  }

  /** A set of strings in ascending order (ORDER BY sk ASC). */
  function Ordered(s: set<string>): (r: seq<string>)
    ensures Ascending(r)
    ensures forall x :: x in r <==> x in s
    ensures |r| == |s|
    decreases |s|
  {
    if s == {} then []
    else
      var m := Least(s);
      var rest := Ordered(s - {m});
      assert forall i :: 0 <= i < |rest| ==> Less(m, rest[i]) by {
        forall i | 0 <= i < |rest| ensures Less(m, rest[i]) {
          assert rest[i] in s - {m};
        }
      }
      [m] + rest
  }

  /** `LIMIT n`: at most n rows, no limit when n is negative. */
  function Take(s: seq<string>, limit: int): (r: seq<string>)
    ensures limit >= 0 ==> |r| == if limit < |s| then limit else |s|
    ensures limit < 0 ==> r == s
    ensures r == s[..|r|]
  {
    if 0 <= limit < |s| then s[..limit] else s
  }

  /** The sort keys Iterate's query returns, in order. They are live rows of
      `pk` in range, ascending, at most `limit` of them, and no row that
      qualifies is left out except after the last one returned when the
      limit was reached (kv.go:268-287; kv_test.go:238-305). */
  function Select(t: Table, pk: string, start: string, after: bool, now: int, limit: int): (r: seq<string>)
    ensures Ascending(r)
    ensures forall i :: 0 <= i < |r| ==>
      (pk, r[i]) in t && Live(t[(pk, r[i])], now) && InRange(r[i], start, after)
    ensures limit >= 0 ==> |r| <= limit
    ensures forall x :: x in Matching(t, pk, start, after, now) ==>
      x in r || (|r| == limit && forall i :: 0 <= i < |r| ==> Less(r[i], x))
  {
    var r := Take(Ordered(Matching(t, pk, start, after, now)), limit);
    TakeOrdered(Matching(t, pk, start, after, now), limit);
    forall i | 0 <= i < |r|
      ensures (pk, r[i]) in t && Live(t[(pk, r[i])], now) && InRange(r[i], start, after)
    {
      InMatching(t, pk, start, after, now, r[i]);
    }
    r
  }

  /** The first `limit` keys of a set in ascending order: ascending, all from
      the set, and every key of the set left out comes after all of them,
      which happens only when the limit was reached. */
  lemma TakeOrdered(m: set<string>, limit: int)
    ensures var r := Take(Ordered(m), limit);
      && Ascending(r)
      && (forall i :: 0 <= i < |r| ==> r[i] in m)
      && (limit >= 0 ==> |r| <= limit)
      && (forall x :: x in m ==> x in r || (|r| == limit && forall i :: 0 <= i < |r| ==> Less(r[i], x)))
  {
    var all := Ordered(m);
    var r := Take(all, limit);
    assert Ascending(r) by {
      forall i, j | 0 <= i < j < |r| ensures Less(r[i], r[j]) {
        assert r[i] == all[i] && r[j] == all[j];
      }
    }
    assert forall i :: 0 <= i < |r| ==> r[i] in m by {
      forall i | 0 <= i < |r| ensures r[i] in m {
        assert r[i] == all[i];
      }
    }
    assert forall x :: x in m ==> x in r || (|r| == limit && forall i :: 0 <= i < |r| ==> Less(r[i], x)) by {
      forall x | x in m && x !in r
        ensures |r| == limit && forall i :: 0 <= i < |r| ==> Less(r[i], x)
      {
        var j :| 0 <= j < |all| && all[j] == x;
        assert |r| <= j;
        forall i | 0 <= i < |r| ensures Less(r[i], x) {
          assert r[i] == all[i];
        }
      }
    }
  }

  /** Membership in the query's keys, one key at a time. */
  lemma InMatching(t: Table, pk: string, start: string, after: bool, now: int, x: string)
    ensures x in Matching(t, pk, start, after, now) <==>
      (pk, x) in t && Live(t[(pk, x)], now) && InRange(x, start, after)
  {
    if (pk, x) in t && Live(t[(pk, x)], now) && InRange(x, start, after) {
      assert (pk, x).1 == x;
    }
  }

  /** The token Iterate returns: the last sort key returned, or `start` when
      nothing was returned (kv.go:315-321). */
  function Token(keys: seq<string>, start: string): (tok: string)
    ensures keys == [] ==> tok == start
    ensures keys != [] ==> tok == keys[|keys| - 1]
  {
    if keys == [] then start else keys[|keys| - 1]
  }

  // -----------------------------------------------------------------------
  // Pagination, as written and corrected.

  /** As written, a page that ends at an empty sort key hands back the
      token "", and Iterate with start "" ignores `after`: the next page
      starts over and returns the same row again. */
  lemma EmptySortKeyRepeatsPage()
    ensures var t: Table := map[("p", "") := Entry(map[], None)];
      && Select(t, "p", "", false, 0, 1) == [""]
      && Token(Select(t, "p", "", false, 0, 1), "") == ""
      && Select(t, "p", "", true, 0, 1) == [""]
  {
    var t: Table := map[("p", "") := Entry(map[], None)];
    assert Matching(t, "p", "", false, 0) == {""} by {
      assert ("p", "") in t;
    }
    assert Matching(t, "p", "", true, 0) == {""} by {
      assert ("p", "") in t;
    }
  }

  /** The sort-key condition as kv.go:259-260 describes it: strictly after
      `start` when `after`, from `start` on otherwise, with "" as start not
      special. */
  predicate InRangeFixed(sk: string, start: string, after: bool) {
    if after then Less(start, sk) else LessEq(start, sk)
  }

  function MatchingFixed(t: Table, pk: string, start: string, after: bool, now: int): set<string> {
    set k | k in t && k.0 == pk && Live(t[k], now) && InRangeFixed(k.1, start, after) :: k.1
  }

  /** The sort keys of the corrected query: as Select, with the corrected
      condition. */
  function SelectFixed(t: Table, pk: string, start: string, after: bool, now: int, limit: int): (r: seq<string>)
    ensures Ascending(r)
    ensures forall i :: 0 <= i < |r| ==>
      (pk, r[i]) in t && Live(t[(pk, r[i])], now) && InRangeFixed(r[i], start, after)
    ensures limit >= 0 ==> |r| <= limit
    ensures forall x :: x in MatchingFixed(t, pk, start, after, now) ==>
      x in r || (|r| == limit && forall i :: 0 <= i < |r| ==> Less(r[i], x))
  {
    var r := Take(Ordered(MatchingFixed(t, pk, start, after, now)), limit);
    TakeOrdered(MatchingFixed(t, pk, start, after, now), limit);
    forall i | 0 <= i < |r|
      ensures (pk, r[i]) in t && Live(t[(pk, r[i])], now) && InRangeFixed(r[i], start, after)
    {
      InMatchingFixed(t, pk, start, after, now, r[i]);
    }
    r
  }

  lemma BothEmptyOrNot(a: seq<string>, b: seq<string>)
    requires forall x :: x in a <==> x in b
    ensures a == [] <==> b == []
  {
    if a != [] { assert a[0] in b; }
    if b != [] { assert b[0] in a; }
  }

  lemma {:induction false} AscendingUnique(a: seq<string>, b: seq<string>)
    requires Ascending(a) && Ascending(b)
    requires forall x :: x in a <==> x in b
    ensures a == b
    decreases |a|
  {
    BothEmptyOrNot(a, b);
    if a != [] {
      assert b[0] in a;
      assert a[0] in b;
      if a[0] != b[0] {
        var i :| 0 <= i < |a| && a[i] == b[0];
        var j :| 0 <= j < |b| && b[j] == a[0];
        assert Less(a[0], b[0]) && Less(b[0], a[0]);
        LessAsymmetric(a[0], b[0]);
      }
      forall x ensures x in a[1..] <==> x in b[1..] {
        if x in a[1..] {
          var i :| 1 <= i < |a| && a[i] == x;
          assert Less(a[0], x);
          LessIrreflexive(x);
          assert x in a && x in b;
          var j :| 0 <= j < |b| && b[j] == x;
          assert j != 0;
          assert b[1..][j - 1] == x;
        }
        if x in b[1..] {
          var j :| 1 <= j < |b| && b[j] == x;
          assert Less(b[0], x);
          LessIrreflexive(x);
          assert x in b && x in a;
          var i :| 0 <= i < |a| && a[i] == x;
          assert i != 0;
          assert a[1..][i - 1] == x;
        }
      }
      AscendingUnique(a[1..], b[1..]);
      assert a == [a[0]] + a[1..] && b == [b[0]] + b[1..];
    }
  }

  /** Membership in the corrected query's keys, one key at a time. */
  lemma InMatchingFixed(t: Table, pk: string, start: string, after: bool, now: int, x: string)
    ensures x in MatchingFixed(t, pk, start, after, now) <==>
      (pk, x) in t && Live(t[(pk, x)], now) && InRangeFixed(x, start, after)
  {
    if (pk, x) in t && Live(t[(pk, x)], now) && InRangeFixed(x, start, after) {
      assert (pk, x).1 == x;
    }
  }

  /** Every key after the n-th of the corrected query is strictly after the
      n-th key, so it qualifies for the query continuing from that key. */
  lemma LaterMatch(t: Table, pk: string, start: string, after: bool, now: int, all: seq<string>, n: nat)
    requires all == Ordered(MatchingFixed(t, pk, start, after, now)) && 0 < n <= |all|
    ensures forall x :: x in all[n..] ==> x in MatchingFixed(t, pk, all[n - 1], true, now)
  {
    forall x | x in all[n..] ensures x in MatchingFixed(t, pk, all[n - 1], true, now) {
      var i :| n <= i < |all| && all[i] == x;
      assert x in MatchingFixed(t, pk, start, after, now);
      assert Less(all[n - 1], x);
    }
  }

  /** Conversely, a key that qualifies for the query continuing from the n-th
      key of the corrected query comes after that key in it. */
  lemma MatchIsLater(t: Table, pk: string, start: string, after: bool, now: int, all: seq<string>, n: nat)
    requires all == Ordered(MatchingFixed(t, pk, start, after, now)) && 0 < n <= |all|
    ensures forall x :: x in MatchingFixed(t, pk, all[n - 1], true, now) ==> x in all[n..]
  {
    var tok := all[n - 1];
    assert InRangeFixed(tok, start, after) by {
      assert tok in MatchingFixed(t, pk, start, after, now);
      InMatchingFixed(t, pk, start, after, now, tok);
    }
    forall x | x in MatchingFixed(t, pk, tok, true, now) ensures x in all[n..] {
      InMatchingFixed(t, pk, tok, true, now, x);
      if after || start != tok {
        LessTransitive(start, tok, x);
      }
      InMatchingFixed(t, pk, start, after, now, x);
      var i :| 0 <= i < |all| && all[i] == x;
      if i < n - 1 {
        LessAsymmetric(x, tok);
      } else if i == n - 1 {
        LessIrreflexive(x);
      } else {
        assert all[n..][i - n] == x;
      }
    }
  }

  /** With the corrected condition, the page after a non-empty page, asked
      for with its token and `after`, continues exactly where it stopped. */
  lemma PagesContinue(t: Table, pk: string, start: string, after: bool, now: int, limit: int, next: int)
    requires SelectFixed(t, pk, start, after, now, limit) != []
    ensures var page := SelectFixed(t, pk, start, after, now, limit);
      var all := Ordered(MatchingFixed(t, pk, start, after, now));
      SelectFixed(t, pk, Token(page, start), true, now, next) == Take(all[|page|..], next)
  {
    var page := SelectFixed(t, pk, start, after, now, limit);
    var all := Ordered(MatchingFixed(t, pk, start, after, now));
    var n := |page|;
    assert page == Take(all, limit);
    assert Token(page, start) == all[n - 1];
    var tok := all[n - 1];
    LaterMatch(t, pk, start, after, now, all, n);
    MatchIsLater(t, pk, start, after, now, all, n);
    AscendingUnique(all[n..], Ordered(MatchingFixed(t, pk, tok, true, now)));
  }

  /** The correction changes only the case of an empty start with `after`. */
  lemma SelectFixedAgrees(t: Table, pk: string, start: string, after: bool, now: int, limit: int)
    requires start != "" || !after
    ensures SelectFixed(t, pk, start, after, now, limit) == Select(t, pk, start, after, now, limit)
  {
    assert MatchingFixed(t, pk, start, after, now) == Matching(t, pk, start, after, now);
  }

  /** Every key of a delivered page is a live row of the table. */
  lemma DeliveredSelected(t: Table, pk: string, start: string, after: bool, now: int, limit: int, stop: Option<nat>)
    ensures var keys := Delivered(SelectFixed(t, pk, start, after, now, limit), stop);
      forall i :: 0 <= i < |keys| ==> (pk, keys[i]) in t && Live(t[(pk, keys[i])], now)
  {
    var all := SelectFixed(t, pk, start, after, now, limit);
    var keys := Delivered(all, stop);
    forall i | 0 <= i < |keys|
      ensures (pk, keys[i]) in t && Live(t[(pk, keys[i])], now)
    {
      assert keys[i] == all[i];
    }
  }

  // -----------------------------------------------------------------------
  // The store.

  /** A row Iterate returns (kv.go:53-58). */
  datatype Row = Row(pk: string, sk: string, expires: Option<int>, data: JSONValue)

  /** The Row built from one result row (kv.go:296-311): the keys, the
      decoded data, and the expiry as a time when the column is not NULL. */
  function RowOf(pk: string, sk: string, e: Entry): (r: Row)
    ensures r.pk == pk && r.sk == sk
    ensures r.data == Decode(e.data) && r.data.Keys == e.data.Keys
    ensures r.expires.Some? <==> e.expires.Some?
  {
    Row(pk, sk, ExpiresTime(e.expires), Decode(e.data))
  }

  /** KV (kv.go:70-72) with its one table. */
  class KvStore {
    var rows: Table

    constructor ()
      ensures rows == map[]
    {
      rows := map[];
    }

    /** putOrCreate with allowUpdate (kv.go:136-199): an upsert. The value
        is marshalled first; a value that does not marshal, or a write the
        database refuses, leaves the table as it was. */
    method Put(pk: string, sk: string, data: JSONValue, expires: Option<int>, write: Outcome)
      returns (err: Option<Error>)
      modifies this
      ensures MarshalJSON(data).Err? ==> err == Some(MarshalJSON(data).error) && rows == old(rows)
      ensures MarshalJSON(data).Ok? && write.Fail? ==> err == Some(write.error) && rows == old(rows)
      ensures MarshalJSON(data).Ok? && write.Pass? ==>
        err == None && rows == old(rows)[(pk, sk) := Entry(MarshalJSON(data).value, ExpiresColumn(expires))]
    {
      var doc := MarshalJSON(data);
      if doc.Err? {
        return Some(doc.error);
      }
      if write.Fail? {
        return Some(write.error);
      }
      rows := rows[(pk, sk) := Entry(doc.value, ExpiresColumn(expires))];
      err := None;
    }

    /** putOrCreate without allowUpdate (kv.go:136-204): ON CONFLICT DO
        NOTHING, then "already exists" when no row was inserted. An existing
        row blocks the insert even if it has expired but not yet been
        cleaned up. */
    method Create(pk: string, sk: string, data: JSONValue, expires: Option<int>, write: Outcome)
      returns (err: Option<Error>)
      modifies this
      ensures MarshalJSON(data).Err? ==> err == Some(MarshalJSON(data).error) && rows == old(rows)
      ensures MarshalJSON(data).Ok? && write.Fail? ==> err == Some(write.error) && rows == old(rows)
      ensures MarshalJSON(data).Ok? && write.Pass? && (pk, sk) in old(rows) ==>
        err == Some(AlreadyExists(pk, sk)) && rows == old(rows)
      ensures MarshalJSON(data).Ok? && write.Pass? && (pk, sk) !in old(rows) ==>
        err == None && rows == old(rows)[(pk, sk) := Entry(MarshalJSON(data).value, ExpiresColumn(expires))]
    {
      var doc := MarshalJSON(data);
      if doc.Err? {
        return Some(doc.error);
      }
      if write.Fail? {
        return Some(write.error);
      }
      var changed := true;
      if (pk, sk) in rows {
        changed := false;
      } else {
        rows := rows[(pk, sk) := Entry(doc.value, ExpiresColumn(expires))];
      }
      if !changed {
        return Some(AlreadyExists(pk, sk));
      }
      err := None;
    }

    /** Get (kv.go:206-236). `query` is what the database answers to the
        query itself: a failure other than "no rows" is returned as it is;
        otherwise the answer is the table's. */
    method Get(pk: string, sk: string, now: int, query: Outcome) returns (r: Result<(JSONValue, Option<int>)>)
      ensures query.Fail? ==> r == Err(query.error)
      ensures query.Pass? ==> r == Lookup(rows, pk, sk, now)
    {
      if query.Fail? {
        return Err(query.error);
      }
      if (pk, sk) !in rows || !Live(rows[(pk, sk)], now) {
        return Err(NoMatchingRow);
      }
      var e := rows[(pk, sk)];
      r := Ok((Decode(e.data), ExpiresTime(e.expires)));
    }

    /** Delete (kv.go:238-256): removes that one key; an absent key is not
        an error. */
    method Delete(pk: string, sk: string, write: Outcome) returns (err: Option<Error>)
      modifies this
      ensures write.Pass? ==> err == None && rows == old(rows) - {(pk, sk)}
      ensures write.Fail? ==> err == Some(write.error) && rows == old(rows)
    {
      if write.Fail? {
        return Some(write.error);
      }
      rows := rows - {(pk, sk)};
      err := None;
    }

    /** One pass of the cleanup routine (kv.go:117-130). A failure is only
        logged, so nothing is returned. */
    method CleanupExpired(now: int, write: Outcome)
      modifies this
      ensures write.Pass? ==> rows == Cleaned(old(rows), now)
      ensures write.Fail? ==> rows == old(rows)
    {
      if write.Pass? {
        rows := map k | k in rows && !Expired(rows[k], now) :: rows[k];
      }
    }

    /** Iterate (kv.go:258-322): runs the query, then builds one Row per
        result row in order, and returns the pagination token. `query` is
        what the database answers to the query itself; `stop` is the number
        of rows after which the cursor fails, if it does. The loop ends at
        such a failure and the error is never looked at, so the page is cut
        short and no error is returned. The keys are those of the corrected
        condition, which differs from the code only for an empty start with
        `after` (SelectFixedAgrees). */
    method Iterate(pk: string, start: string, limit: int, after: bool, now: int, query: Outcome, stop: Option<nat>)
      returns (result: seq<Row>, token: string, err: Option<Error>)
      ensures query.Fail? ==> result == [] && token == "" && err == Some(query.error)
      ensures query.Pass? ==> err == None
      ensures query.Pass? ==>
        var keys := Delivered(SelectFixed(rows, pk, start, after, now, limit), stop);
        && |result| == |keys|
        && (forall i :: 0 <= i < |result| ==>
              && (pk, keys[i]) in rows && Live(rows[(pk, keys[i])], now)
              && result[i] == RowOf(pk, keys[i], rows[(pk, keys[i])]))
        && token == Token(keys, start)
    {
      if query.Fail? {
        return [], "", Some(query.error);
      }
      var keys := Delivered(SelectFixed(rows, pk, start, after, now, limit), stop);
      DeliveredSelected(rows, pk, start, after, now, limit, stop);
      result := BuildRows(pk, keys);
      token := start;
      if |result| > 0 {
        token := result[|result| - 1].sk;
      }
      err := None;
    }

    /** The scanning loop of Iterate (kv.go:295-312): one Row per result
        row, in order. */
    method BuildRows(pk: string, keys: seq<string>) returns (result: seq<Row>)
      requires forall i :: 0 <= i < |keys| ==> (pk, keys[i]) in rows
      ensures |result| == |keys|
      ensures forall i :: 0 <= i < |keys| ==> result[i] == RowOf(pk, keys[i], rows[(pk, keys[i])])
    {
      result := [];
      var i := 0;
      while i < |keys|
        invariant 0 <= i <= |keys| && |result| == i
        invariant forall j :: 0 <= j < i ==> result[j] == RowOf(pk, keys[j], rows[(pk, keys[j])])
      {
        result := result + [RowOf(pk, keys[i], rows[(pk, keys[i])])];
        i := i + 1;
      }
    }
  }
}
