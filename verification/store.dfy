/** The abstract store that stands in for one database table and the
    repository calls the services make on it (src/base/repository.py):
    a finite map from primary key to entity. */
module Store {
  import opened Wrappers
  import opened Filters
  import opened Exceptions
  import opened BaseModel

  type Table = map<int, Model>

  /** The outcome of a call that may change a table. */
  datatype Step<T> = Step(result: Result<T, Error>, table: Table)

  /** Every row is stored under its own primary key. */
  predicate WellFormed(t: Table) {
    forall k :: k in t ==> t[k].id == Some(k)
  }

  predicate Increasing(s: seq<int>) {
    forall i, j :: 0 <= i < j < |s| ==> s[i] < s[j]
  }

  lemma {:induction false} MinExists(s: set<int>)
    requires s != {}
    ensures exists m :: m in s && forall x :: x in s ==> m <= x
  {
    var y := PickOne(s);
    if s == {y} {
      assert forall x :: x in s ==> y <= x;
    } else {
      MinExists(s - {y});
      var m :| m in s - {y} && forall x :: x in s - {y} ==> m <= x;
      var least := if y < m then y else m;
      forall x | x in s
        ensures least <= x
      {
        if x != y {
          assert x in s - {y};
        }
      }
    }
  }

  /** Some member of a non-empty set. The branch is where the verifier
      learns that a set with no members is `{}`; without it the choice
      below has no witness. */
  lemma PickOne(s: set<int>) returns (y: int)
    requires s != {}
    ensures y in s
  {
    if forall x :: x !in s {
      assert false;
    }
    y :| y in s;
  }

  function MinOf(s: set<int>): (m: int)
    requires s != {}
    ensures m in s && forall x :: x in s ==> m <= x
  {
    MinExists(s);
    var m :| m in s && forall x :: x in s ==> m <= x;
    m
  }

  /** The keys of a table in ascending order: the retrieval order of
      `scalars().all()`, which the database leaves unspecified. */
  function SortedKeys(s: set<int>): (r: seq<int>)
    ensures |r| == |s|
    ensures Increasing(r)
    ensures forall k :: k in r <==> k in s
    decreases s
  {
    if s == {} then []
    else
      var m := MinOf(s);
      [m] + SortedKeys(s - {m})
  }

  lemma ConsIncreasing(x: int, rest: seq<int>)
    requires Increasing(rest)
    requires forall k :: k in rest ==> x < k
    ensures Increasing([x] + rest)
  {
    forall i, j | 0 <= i < j < |[x] + rest|
      ensures ([x] + rest)[i] < ([x] + rest)[j]
    {
      if i > 0 {
        assert ([x] + rest)[i] == rest[i - 1];
      }
      assert ([x] + rest)[j] == rest[j - 1];
      assert rest[j - 1] in rest;
    }
  }

  lemma TailAbove(ks: seq<int>, rest: seq<int>)
    requires |ks| > 0 && Increasing(ks)
    requires forall k :: k in rest ==> k in ks[1..]
    ensures forall k :: k in rest ==> ks[0] < k
  {
    forall k | k in rest
      ensures ks[0] < k
    {
      var j :| 0 <= j < |ks[1..]| && ks[1..][j] == k;
      assert ks[j + 1] == k;
    }
  }

  /** The keys of `ks` whose rows match `f`, in the same order. */
  function KeepMatching(ks: seq<int>, t: Table, f: Filter): (r: seq<int>)
    requires forall i :: 0 <= i < |ks| ==> ks[i] in t
    ensures forall k :: k in r <==> k in ks && Matches(t[k], f)
    ensures Increasing(ks) ==> Increasing(r)
  {
    if |ks| == 0 then []
    else
      var rest := KeepMatching(ks[1..], t, f);
      if Matches(t[ks[0]], f) then
        if Increasing(ks) then
          TailAbove(ks, rest);
          ConsIncreasing(ks[0], rest);
          [ks[0]] + rest
        else [ks[0]] + rest
      else rest
  }

  /** A filter every row passes keeps the key list as it is. */
  lemma {:induction false} KeepMatchingAll(ks: seq<int>, t: Table, f: Filter)
    requires forall i :: 0 <= i < |ks| ==> ks[i] in t && Matches(t[ks[i]], f)
    ensures KeepMatching(ks, t, f) == ks
  {
    if |ks| > 0 {
      KeepMatchingAll(ks[1..], t, f);
    }
  }

  /** The keys of the rows a filter selects, in ascending order. */
  function MatchingKeys(t: Table, f: Filter): (r: seq<int>)
    ensures Increasing(r)
    ensures forall k :: k in r <==> k in t && Matches(t[k], f)
  {
    KeepMatching(SortedKeys(t.Keys), t, f)
  }

  /** The rows at the given keys. */
  function RowsAt(t: Table, ks: seq<int>): (r: seq<Model>)
    requires forall i :: 0 <= i < |ks| ==> ks[i] in t
    ensures |r| == |ks|
    ensures forall i :: 0 <= i < |ks| ==> r[i] == t[ks[i]]
  {
    seq(|ks|, i requires 0 <= i < |ks| => t[ks[i]])
  }

  /** The rows at a key list are rows of the table, the row of every
      listed key is among them, and in a well-formed table and an
      ascending list, no id is repeated. */
  lemma RowsAtFacts(t: Table, ks: seq<int>)
    requires forall i :: 0 <= i < |ks| ==> ks[i] in t
    ensures forall i :: 0 <= i < |ks| ==> RowsAt(t, ks)[i] in t.Values
    ensures forall k :: k in ks ==> k in t && t[k] in RowsAt(t, ks)
    ensures WellFormed(t) && Increasing(ks) ==>
      forall i, j :: 0 <= i < j < |ks| ==> RowsAt(t, ks)[i].id != RowsAt(t, ks)[j].id
  {
    var rows := RowsAt(t, ks);
    forall i | 0 <= i < |ks|
      ensures rows[i] in t.Values
    {
      assert rows[i] == t[ks[i]];
    }
    forall k | k in ks
      ensures k in t && t[k] in rows
    {
      var j :| 0 <= j < |ks| && ks[j] == k;
      assert rows[j] == t[k];
    }
    if WellFormed(t) && Increasing(ks) {
      forall i, j | 0 <= i < j < |ks|
        ensures rows[i].id != rows[j].id
      {
        assert rows[i].id == Some(ks[i]) && rows[j].id == Some(ks[j]);
      }
    }
  }

  /** The rows a filter selects, by ascending key. */
  function MatchingRows(t: Table, f: Filter): seq<Model> {
    RowsAt(t, MatchingKeys(t, f))
  }

  /** The selected rows are matching rows of the table, every matching
      row is among them, and in a well-formed table none is repeated. */
  lemma MatchingRowsFacts(t: Table, f: Filter)
    ensures var rows := MatchingRows(t, f);
      && (forall i :: 0 <= i < |rows| ==> rows[i] in t.Values && Matches(rows[i], f))
      && (forall k :: k in t && Matches(t[k], f) ==> t[k] in rows)
      && (WellFormed(t) ==> forall i, j :: 0 <= i < j < |rows| ==> rows[i].id != rows[j].id)
  {
    var ks := MatchingKeys(t, f);
    RowsAtFacts(t, ks);
    var rows := RowsAt(t, ks);
    forall i | 0 <= i < |rows|
      ensures Matches(rows[i], f)
    {
      assert ks[i] in ks;
    }
  }

  predicate NoMatch(t: Table, f: Filter) {
    forall k :: k in t ==> !Matches(t[k], f)
  }

  predicate UniqueMatch(t: Table, f: Filter, k: int) {
    && k in t && Matches(t[k], f)
    && forall k' :: k' in t && Matches(t[k'], f) ==> k' == k
  }

  predicate SeveralMatches(t: Table, f: Filter) {
    exists k1, k2 :: k1 in t && k2 in t && k1 != k2 && Matches(t[k1], f) && Matches(t[k2], f)
  }

  /** How many rows a filter selects, read off the ascending key list. */
  lemma MatchCases(t: Table, f: Filter)
    ensures var ks := MatchingKeys(t, f);
      && (|ks| == 0 ==> NoMatch(t, f) && !SeveralMatches(t, f))
      && (|ks| == 1 ==> UniqueMatch(t, f, ks[0]) && !NoMatch(t, f) && !SeveralMatches(t, f))
      && (|ks| >= 2 ==> SeveralMatches(t, f) && !NoMatch(t, f))
  {
    var ks := MatchingKeys(t, f);
    if |ks| == 0 {
      forall k | k in t
        ensures !Matches(t[k], f)
      {
        assert k !in ks;
      }
    } else if |ks| == 1 {
      assert ks[0] in ks;
      forall k' | k' in t && Matches(t[k'], f)
        ensures k' == ks[0]
      {
        assert k' in ks;
      }
    } else {
      assert ks[0] in ks && ks[1] in ks;
      assert ks[0] != ks[1];
    }
  }

  /** `scalars_one_or_none`: nothing, the one matching row, or an error
      when the filter selects two rows or more. */
  function OneOrNone(t: Table, f: Filter): (r: Result<Option<Model>, Error>)
    ensures r == Success(None) <==> NoMatch(t, f)
    ensures r.Success? && r.value.Some? ==> exists k :: UniqueMatch(t, f, k) && r.value.value == t[k]
    ensures r.Failure? <==> SeveralMatches(t, f)
    ensures r.Failure? ==> r.error == MultipleResultsFound
  {
    var ks := MatchingKeys(t, f);
    MatchCases(t, f);
    if |ks| == 0 then
      Success(None)
    else if |ks| == 1 then
      Success(Some(t[ks[0]]))
    else
      Failure(MultipleResultsFound)
  }

  /** The primary key an insert or merge writes to: the model's own id, or
      else the one the database assigns. */
  function TargetKey(m: Model, newId: int): int {
    match m.id
    case Some(i) => i
    case None => newId
  }

  /** `repository.create`: add, flush and refresh. The insert fails on a
      primary key already in use and otherwise adds exactly one row. */
  function Insert(t: Table, m: Model, newId: int): (r: Step<Model>)
    ensures var key := TargetKey(m, newId);
      && (r.result.Success? <==> key !in t)
      && (r.result.Failure? ==> r.result.error == IntegrityError && r.table == t)
      && (r.result.Success? ==>
            && r.result.value.id == Some(key)
            && r.result.value == WithId(m, Some(key))
            && r.table.Keys == t.Keys + {key}
            && r.table[key] == r.result.value
            && forall k :: k in t ==> r.table[k] == t[k])
    ensures WellFormed(t) ==> WellFormed(r.table)
  {
    var key := TargetKey(m, newId);
    if key in t then Step(Failure(IntegrityError), t)
    else
      var stored := WithId(m, Some(key));
      Step(Success(stored), t[key := stored])
  }

  /** `repository.update`: `session.merge`. A model with an id is copied
      onto the row with that id, which is inserted when there is none. A
      model without an id becomes a new pending row, so the flush inserts
      it exactly as `create` does: a taken database-assigned key is an
      `IntegrityError`, and an existing row is never replaced. */
  function Merge(t: Table, m: Model, newId: int): (r: Step<Model>)
    ensures var key := TargetKey(m, newId);
      && (r.result.Success? <==> m.id.Some? || key !in t)
      && (r.result.Failure? ==> r.result.error == IntegrityError && r.table == t)
      && (r.result.Success? ==>
            && r.result.value == WithId(m, Some(key))
            && r.table.Keys == t.Keys + {key}
            && r.table[key] == r.result.value
            && forall k :: k in t && k != key ==> r.table[k] == t[k])
    ensures m.id.None? ==> forall k :: k in t ==> k in r.table && r.table[k] == t[k]
    ensures WellFormed(t) ==> WellFormed(r.table)
  {
    var key := TargetKey(m, newId);
    if m.id.None? then Insert(t, m, newId)
    else
      var stored := WithId(m, Some(key));
      Step(Success(stored), t[key := stored])
  }

  /** `repository.delete` of `delete(model).filter_by(**filter)`. */
  function DeleteWhere(t: Table, f: Filter): (r: Table)
    ensures forall k :: k in r <==> k in t && !Matches(t[k], f)
    ensures forall k :: k in r ==> r[k] == t[k]
  {
    map k | k in t && !Matches(t[k], f) :: t[k]
  }

  /** Deleting by a filter that selects exactly one row removes that row
      and nothing else. */
  lemma DeleteUniqueMatch(t: Table, f: Filter, k: int)
    requires UniqueMatch(t, f, k)
    ensures DeleteWhere(t, f) == t - {k}
  {
    var after := DeleteWhere(t, f);
    forall x | x in t && x != k
      ensures x in after
    {
      assert !Matches(t[x], f);
    }
    assert after.Keys == (t - {k}).Keys;
  }

  /** In a well-formed table an `{"id": ...}` filter selects exactly the
      row stored under that id, and an unset id selects nothing. */
  lemma IdFilterSelectsItsKey(t: Table, id: Option<int>)
    ensures WellFormed(t) ==> forall k :: k in t ==> (Matches(t[k], IdFilter(id)) <==> id == Some(k))
    ensures WellFormed(t) ==> !SeveralMatches(t, IdFilter(id))
  {
    forall k | k in t && WellFormed(t)
      ensures Matches(t[k], IdFilter(id)) <==> id == Some(k)
    {
      assert Attr(t[k], "id") == Some(IntV(k));
    }
  }
}
