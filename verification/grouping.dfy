/** `_group_by`: the one-to-many index from a foreign-key value to the rows
    carrying it (functions/repositories/exam_repo.py, duplicated in
    functions/repositories/full_question_repo.py). */
module Grouping {
  import opened Wrappers
  import opened Seqs
  import opened Rows

  /** A Python dict from key value to rows. Keys are stored in canonical form
      (see `Canon`), which is how Python's `==` identifies `True` with `1`. */
  type Groups = map<Value, seq<Row>>

  /** The row carries a non-null value at `key` that Python considers equal to `k`. */
  function KeyMatches(key: string, k: Value): Row -> bool {
    (r: Row) => Get(r, key) != VNull && Canon(Get(r, key)) == Canon(k)
  }

  /** Reference definition of a group: the rows whose key equals `k`, in input order. */
  function Matching(rows: seq<Row>, key: string, k: Value): seq<Row> {
    Filter(rows, KeyMatches(key, k))
  }

  /** No row holds a list or dict at `key` (a null or missing key is fine). */
  predicate KeysHashable(rows: seq<Row>, key: string) {
    forall i :: 0 <= i < |rows| ==> Hashable(Get(rows[i], key))
  }

  /** Appending one row extends exactly the group of that row's key. */
  lemma MatchingSnoc(rows: seq<Row>, key: string)
    requires |rows| > 0
    ensures forall k ::
              Matching(rows, key, k)
              == Matching(rows[..|rows| - 1], key, k)
                 + (if KeyMatches(key, k)(rows[|rows| - 1]) then [rows[|rows| - 1]] else [])
  {
    var n := |rows| - 1;
    assert rows == rows[..n] + [rows[n]];
    forall k ensures Matching(rows, key, k) ==
      Matching(rows[..n], key, k) + (if KeyMatches(key, k)(rows[n]) then [rows[n]] else [])
    {
      FilterAppend(rows[..n], [rows[n]], KeyMatches(key, k));
      assert Filter([rows[n]], KeyMatches(key, k))
        == (if KeyMatches(key, k)(rows[n]) then [rows[n]] else []);
    }
  }

  /** `_group_by(rows, key=key)`: walks the rows in order, skips rows whose key
      is missing or `None`, and appends every other row to the list stored
      under its key. A list or dict key makes Python raise TypeError. */
  function GroupBy(rows: seq<Row>, key: string): (r: Result<Groups, Error>)
    ensures r.Success? <==> KeysHashable(rows, key)
    ensures r.Failure? ==> r.error == UnhashableKey
    ensures r.Success? ==> forall k :: k in r.value ==>
      k != VNull && Canon(k) == k && r.value[k] == Matching(rows, key, k) && r.value[k] != []
    ensures r.Success? ==> forall i :: 0 <= i < |rows| && Get(rows[i], key) != VNull ==>
      Canon(Get(rows[i], key)) in r.value
  {
    if |rows| == 0 then Success(map[])
    else
      var n := |rows| - 1;
      var prefix := rows[..n];
      assert forall i :: 0 <= i < n ==> rows[i] == prefix[i];
      var g :- GroupBy(prefix, key);
      var row := rows[n];
      var v := Get(row, key);
      if v == VNull then
        MatchingSnoc(rows, key);
        Success(g)
      else if !Hashable(v) then
        Failure(UnhashableKey)
      else
        var c := Canon(v);
        assert Canon(c) == c;
        MatchingSnoc(rows, key);
        FilterEmpty(prefix, KeyMatches(key, c));
        Success(g[c := (if c in g then g[c] else []) + [row]])
  }

  /** `groups.get(k, [])`: the stored rows, or `[]` when `k` is not a key.
      Looking up a list or dict raises TypeError. */
  function Lookup(g: Groups, k: Value): Result<seq<Row>, Error> {
    if !Hashable(k) then Failure(UnhashableKey)
    else if Canon(k) in g then Success(g[Canon(k)])
    else Success([])
  }

  /** Looking a value up in the index yields exactly its reference group: the
      rows whose key equals it, in input order; `None` and absent keys yield
      `[]`, and only a list or dict raises. */
  lemma LookupIsMatching(rows: seq<Row>, key: string, k: Value)
    requires GroupBy(rows, key).Success?
    ensures Lookup(GroupBy(rows, key).value, k)
            == if Hashable(k) then Success(Matching(rows, key, k)) else Failure(UnhashableKey)
  {
    var g := GroupBy(rows, key).value;
    if Hashable(k) {
      if Canon(k) in g {
        assert Canon(Canon(k)) == Canon(k);
        FilterCongruent(rows, KeyMatches(key, Canon(k)), KeyMatches(key, k));
      } else {
        FilterEmpty(rows, KeyMatches(key, k));
      }
    }
  }

  /** Every row with a non-null key sits in the group of its own key, as often
      as it occurs in the input, and in no other group; a row whose key is
      missing or `None` sits in no group at all. */
  lemma {:induction false} GroupByPlacement(rows: seq<Row>, key: string, x: Row)
    requires GroupBy(rows, key).Success?
    ensures var g := GroupBy(rows, key).value;
            Get(x, key) == VNull ==> forall k :: k in g ==> x !in g[k]
    ensures var g := GroupBy(rows, key).value;
            Get(x, key) != VNull && x in rows ==>
              Canon(Get(x, key)) in g && multiset(g[Canon(Get(x, key))])[x] == multiset(rows)[x]
    ensures var g := GroupBy(rows, key).value;
            forall k :: k in g && k != Canon(Get(x, key)) ==> x !in g[k]
  {
    var g := GroupBy(rows, key).value;
    forall k | k in g
      ensures Get(x, key) == VNull ==> x !in g[k]
      ensures k != Canon(Get(x, key)) ==> x !in g[k]
    {
      FilterMembership(rows, KeyMatches(key, k), x);
    }
    if Get(x, key) != VNull && x in rows {
      var c := Canon(Get(x, key));
      assert Canon(c) == c;
      FilterMultiplicity(rows, KeyMatches(key, c), x);
    }
  }

  /** Every group is an order-preserving subsequence of the input rows. */
  lemma {:induction false} GroupsPreserveOrder(rows: seq<Row>, key: string)
    requires GroupBy(rows, key).Success?
    ensures var g := GroupBy(rows, key).value;
            forall k :: k in g ==> IsSubsequence(g[k], rows)
  {
    var g := GroupBy(rows, key).value;
    forall k | k in g ensures IsSubsequence(g[k], rows) {
      FilterIsSubsequence(rows, KeyMatches(key, k));
    }
  }

  /** What a group contains: an order-preserving subsequence of the rows, each
      with a non-null key equal to `k`, every such row of the input as often as
      it occurs there; and nothing at all for a `None` key. */
  lemma {:induction false} MatchingIsGroup(rows: seq<Row>, key: string, k: Value)
    ensures IsSubsequence(Matching(rows, key, k), rows)
    ensures k == VNull ==> Matching(rows, key, k) == []
    ensures forall x :: x in Matching(rows, key, k) ==> Get(x, key) != VNull && Canon(Get(x, key)) == Canon(k)
    ensures forall x :: Get(x, key) != VNull && Canon(Get(x, key)) == Canon(k) ==>
              multiset(Matching(rows, key, k))[x] == multiset(rows)[x]
  {
    FilterIsSubsequence(rows, KeyMatches(key, k));
    FilterEmpty(rows, KeyMatches(key, k));
    forall x ensures x in Matching(rows, key, k) ==> KeyMatches(key, k)(x) {
      FilterMembership(rows, KeyMatches(key, k), x);
    }
    forall x | KeyMatches(key, k)(x)
      ensures multiset(Matching(rows, key, k))[x] == multiset(rows)[x]
    {
      FilterMultiplicity(rows, KeyMatches(key, k), x);
    }
  }
}
