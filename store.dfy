/** The value-level parts of the record store's edits: removing a row,
    renumbering the status map after a removal, and the row filter. */
module Store {
  import opened Text
  import opened Records

  /** `del streams[i]`: the rows before `i` stay, the rows after it move
      down by one. */
  function RemoveAt<T>(s: seq<T>, i: nat): (r: seq<T>)
    requires i < |s|
    ensures |r| == |s| - 1
    ensures forall k | 0 <= k < i :: r[k] == s[k]
    ensures forall k | i <= k < |r| :: r[k] == s[k + 1]
  {
    s[..i] + s[i + 1..]
  }

  /** The status map rebuilt after row `i` is deleted: the entry of `i` is
      dropped, entries below `i` keep their key and entries above it move to
      the key one lower. */
  function ShiftDown<V>(m: map<nat, V>, i: nat): (r: map<nat, V>)
    ensures forall k: nat :: k in r <==> (k < i && k in m) || (k >= i && k + 1 in m)
    ensures forall k | k in r && k < i :: k in m && r[k] == m[k]
    ensures forall k | k in r && k >= i :: k + 1 in m && r[k] == m[k + 1]
  {
    map k | k in ShiftedKeys(m, i) :: m[Source(k, i)]
  }

  /** The old key whose entry lands on key `k` once row `i` is gone: never
      the deleted row itself, on the same side of it as `k`, and at most one
      above `k`. */
  function Source(k: nat, i: nat): (j: nat)
    ensures j != i
    ensures j < i <==> k < i
    ensures k <= j <= k + 1
  {
    if k < i then k else k + 1
  }

  /** The keys of the rebuilt map: those whose old key is present and is not
      the deleted row. */
  function ShiftedKeys<V>(m: map<nat, V>, i: nat): (keys: set<nat>)
    ensures forall k: nat :: k in keys <==> Source(k, i) in m && Source(k, i) != i
  {
    var below := set k | k in m && k < i;
    var above := set k | k in m && k > i :: (k - 1) as nat;
    assert forall k: nat :: k in above <==> k >= i && k + 1 in m by {
      forall k: nat
        ensures k in above <==> k >= i && k + 1 in m
      {
        if k >= i && k + 1 in m {
          var j := k + 1;
          assert j in m && j > i && (j - 1) as nat == k;
        }
      }
    }
    below + above
  }

  /** One filter against one field: an empty filter lets every row through,
      otherwise the filter must occur in the field, both lower-cased. */
  predicate FieldMatches(filter: string, field: string)
  {
    var f := Lower(filter);
    f == "" || Contains(Lower(field), f)
  }

  /** The three filters of the list view, combined with AND. */
  predicate Keeps(s: Stream, nameFilter: string, genreFilter: string, languageFilter: string)
  {
    && FieldMatches(nameFilter, s.name)
    && FieldMatches(genreFilter, s.genre)
    && FieldMatches(languageFilter, s.language)
  }

  /** A filter matches a field exactly when, ignoring case, it is empty or
      occurs somewhere in the field. */
  lemma FieldMatchesIffOccurs(filter: string, field: string)
    ensures FieldMatches(filter, field) <==>
      filter == "" || exists i :: OccursAt(Lower(field), Lower(filter), i)
  {
    ContainsIffOccurs(Lower(field), Lower(filter));
    assert |Lower(filter)| == |filter|;
  }

  /** What `filtered_streams` returns: the kept rows paired with their
      positions in the whole list, in list order. */
  function Matching(rows: seq<Stream>, nameFilter: string, genreFilter: string, languageFilter: string): seq<(nat, Stream)>
  {
    if |rows| == 0 then []
    else
      var n := |rows| - 1;
      Matching(rows[..n], nameFilter, genreFilter, languageFilter)
      + (if Keeps(rows[n], nameFilter, genreFilter, languageFilter) then [(n, rows[n])] else [])
  }

  /** The filter returns exactly the kept rows: each entry is a kept row at
      its original position, the positions strictly increase, and no kept
      row is missing. */
  lemma {:induction false} MatchingIsFilter(rows: seq<Stream>, nameFilter: string, genreFilter: string, languageFilter: string)
    ensures forall j | 0 <= j < |Matching(rows, nameFilter, genreFilter, languageFilter)| ::
      var e := Matching(rows, nameFilter, genreFilter, languageFilter)[j];
      e.0 < |rows| && e.1 == rows[e.0] && Keeps(e.1, nameFilter, genreFilter, languageFilter)
    ensures forall i, j | 0 <= i < j < |Matching(rows, nameFilter, genreFilter, languageFilter)| ::
      Matching(rows, nameFilter, genreFilter, languageFilter)[i].0 < Matching(rows, nameFilter, genreFilter, languageFilter)[j].0
    ensures forall k | 0 <= k < |rows| && Keeps(rows[k], nameFilter, genreFilter, languageFilter) ::
      exists j :: 0 <= j < |Matching(rows, nameFilter, genreFilter, languageFilter)| &&
        Matching(rows, nameFilter, genreFilter, languageFilter)[j].0 == k
  {
    if |rows| > 0 {
      var n := |rows| - 1;
      var front := rows[..n];
      MatchingIsFilter(front, nameFilter, genreFilter, languageFilter);
      var p := Matching(front, nameFilter, genreFilter, languageFilter);
      var r := Matching(rows, nameFilter, genreFilter, languageFilter);
      forall j | 0 <= j < |p|
        ensures r[j] == p[j] && r[j].0 < |rows| && r[j].1 == rows[r[j].0]
      {
        assert p[j].0 < |front| && p[j].1 == front[p[j].0];
        assert front[p[j].0] == rows[p[j].0];
      }
      forall k | 0 <= k < |rows| && Keeps(rows[k], nameFilter, genreFilter, languageFilter)
        ensures exists j :: 0 <= j < |r| && r[j].0 == k
      {
        if k < n {
          assert front[k] == rows[k];
          var j :| 0 <= j < |p| && p[j].0 == k;
          assert r[j] == p[j];
        } else {
          assert r[|p|] == (n, rows[n]);
        }
      }
    }
  }

  /** With every filter empty, every row is returned at its own position. */
  lemma {:induction false} MatchingAllEmpty(rows: seq<Stream>)
    ensures var r := Matching(rows, "", "", "");
      |r| == |rows| && forall j | 0 <= j < |r| :: r[j] == (j, rows[j])
  {
    if |rows| > 0 {
      var n := |rows| - 1;
      MatchingAllEmpty(rows[..n]);
      assert Keeps(rows[n], "", "", "");
    }
  }
}
