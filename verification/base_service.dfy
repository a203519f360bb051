/** `BaseService`: the filtered get / exists / create / update / delete
    shared by both entity services (src/base/service.py), over one table
    of the abstract store. */
module BaseService {
  import opened Wrappers
  import opened Filters
  import opened Exceptions
  import opened BaseModel
  import opened Store

  /** The service's entity label, used only in `NotFoundError`. */
  datatype Service = Service(modelName: string)

  const WrongFilterMessage :=
    "Фильтр поиска должен включать в себя хотя бы одну пару {\"Название_атрибута\": Значение_атрибута}"

  /** `_is_correct_filter`: only a `None` filter is wrong; an empty dict
      passes. With `raise_exc` the wrong filter raises, otherwise it
      yields `False`. */
  function IsCorrectFilter(filter: Option<Filter>, raiseExc: bool): (r: Result<bool, Error>)
    ensures r == Success(true) <==> filter.Some?
    ensures filter.None? && raiseExc ==> r == Failure(ValueError(WrongFilterMessage))
    ensures filter.None? && !raiseExc ==> r == Success(false)
  {
    if filter.None? then
      if raiseExc then Failure(ValueError(WrongFilterMessage)) else Success(false)
    else Success(true)
  }

  /** `get`: the one row the filter selects. A `None` filter is refused
      before the table is read; no match is a `NotFoundError` carrying the
      service's label and the filter. */
  function Get(svc: Service, t: Table, filter: Option<Filter>): (r: Result<Model, Error>)
    ensures filter.None? ==> r == Failure(ValueError(WrongFilterMessage))
    ensures r.Success? ==> filter.Some? && exists k :: UniqueMatch(t, filter.value, k) && r.value == t[k]
    ensures filter.Some? ==> (r.Success? <==> exists k :: UniqueMatch(t, filter.value, k))
    ensures filter.Some? && NoMatch(t, filter.value) ==> r == Failure(NotFoundError(svc.modelName, filter))
    ensures filter.Some? && SeveralMatches(t, filter.value) ==> r == Failure(MultipleResultsFound)
  {
    match IsCorrectFilter(filter, true)
    case Failure(e) => Failure(e)
    case Success(_) =>
      MatchCases(t, filter.value);
      match OneOrNone(t, filter.value)
      case Failure(e) => Failure(e)
      case Success(None) => Failure(NotFoundError(svc.modelName, filter))
      case Success(Some(m)) => Success(m)
  }

  /** `get_multiple`: every row the filter selects. The filter is not
      checked: `{}` selects every row, and `None` only fails when Python
      unpacks it with `**`. */
  function GetMultiple(t: Table, filter: Option<Filter>): (r: Result<seq<Model>, Error>)
    ensures filter.None? <==> r == Failure(TypeError)
    ensures r.Success? ==> forall i :: 0 <= i < |r.value| ==> r.value[i] in t.Values && Matches(r.value[i], filter.value)
    ensures r.Success? ==> forall k :: k in t && Matches(t[k], filter.value) ==> t[k] in r.value
    ensures r.Success? && WellFormed(t) ==> forall i, j :: 0 <= i < j < |r.value| ==> r.value[i].id != r.value[j].id
  {
    match filter
    case None => Failure(TypeError)
    case Some(f) =>
      MatchingRowsFacts(t, f);
      Success(MatchingRows(t, f))
  }

  /** `exists`: whether the filter selects a row. A `None` filter is
      refused; a filter selecting several rows fails in `one_or_none`. */
  function Exists(t: Table, filter: Option<Filter>): (r: Result<bool, Error>)
    ensures filter.None? ==> r == Failure(ValueError(WrongFilterMessage))
    ensures filter.Some? ==> (r.Failure? <==> SeveralMatches(t, filter.value))
    ensures filter.Some? && SeveralMatches(t, filter.value) ==> r == Failure(MultipleResultsFound)
    ensures r.Success? ==> (r.value <==> exists k :: k in t && Matches(t[k], filter.value))
  {
    match IsCorrectFilter(filter, true)
    case Failure(e) => Failure(e)
    case Success(_) =>
      match OneOrNone(t, filter.value)
      case Failure(e) => Failure(e)
      case Success(found) => Success(found.Some?)
  }

  /** `get_all`: every row of the table, each once. */
  function GetAll(t: Table): (r: seq<Model>)
    ensures |r| == |t|
    ensures forall i :: 0 <= i < |r| ==> r[i] in t.Values
    ensures forall k :: k in t ==> t[k] in r
    ensures WellFormed(t) ==> forall i, j :: 0 <= i < j < |r| ==> r[i].id != r[j].id
  {
    var ks := SortedKeys(t.Keys);
    RowsAtFacts(t, ks);
    RowsAt(t, ks)
  }

  /** `create`: handed to the store unchanged, with no uniqueness check
      of its own. */
  function Create(t: Table, m: Model, newId: int): (r: Step<Model>)
    ensures r == Insert(t, m, newId)
    ensures r.result.Success? <==> TargetKey(m, newId) !in t
  {
    Insert(t, m, newId)
  }

  /** `update`: handed to the store unchanged. A merge of a model with an
      id never fails; one without an id fails only on a taken key. */
  function Update(t: Table, m: Model, newId: int): (r: Step<Model>)
    ensures r == Merge(t, m, newId)
    ensures m.id.Some? ==> r.result.Success?
    ensures m.id.None? ==> r == Create(t, m, newId)
  {
    Merge(t, m, newId)
  }

  /** `delete`: checks with `exists` first, so it fails on a `None`
      filter, on a filter selecting nothing (`NotFoundError`) and on one
      selecting several rows; only a single selected row is ever removed.
      A failure leaves the table as it was. */
  function Delete(svc: Service, t: Table, filter: Option<Filter>): (r: Step<()>)
    ensures filter.None? ==> r == Step(Failure(ValueError(WrongFilterMessage)), t)
    ensures r.result.Failure? ==> r.table == t
    ensures filter.Some? && NoMatch(t, filter.value) ==> r.result == Failure(NotFoundError(svc.modelName, filter))
    ensures filter.Some? && SeveralMatches(t, filter.value) ==> r.result == Failure(MultipleResultsFound)
    ensures r.result.Success? <==> filter.Some? && exists k :: UniqueMatch(t, filter.value, k)
    ensures r.result.Success? ==> forall k :: k in r.table <==> k in t && !Matches(t[k], filter.value)
    ensures r.result.Success? ==> forall k :: k in r.table ==> r.table[k] == t[k]
    ensures r.result.Success? ==> exists k :: UniqueMatch(t, filter.value, k) && r.table == t - {k}
  {
    match Exists(t, filter)
    case Failure(e) => Step(Failure(e), t)
    case Success(false) => Step(Failure(NotFoundError(svc.modelName, filter)), t)
    case Success(true) =>
      var f := filter.value;
      MatchCases(t, f);
      var ks := MatchingKeys(t, f);
      DeleteUniqueMatch(t, f, ks[0]);
      Step(Success(()), DeleteWhere(t, f))
  }

  /** A `None` filter is refused without looking at the table: the
      outcome is the same whatever the table holds. */
  lemma NoneFilterIgnoresTable(svc: Service, t1: Table, t2: Table)
    ensures Get(svc, t1, None) == Get(svc, t2, None)
    ensures Exists(t1, None) == Exists(t2, None)
    ensures Delete(svc, t1, None).result == Delete(svc, t2, None).result
  {
  }

  /** The empty filter `{}` is accepted and selects every row: `get` then
      returns the only row, fails with `NotFoundError` on an empty table
      and with `MultipleResultsFound` on a larger one, and `get_multiple`
      returns the whole table. */
  lemma EmptyFilterSelectsEveryRow(svc: Service, t: Table)
    ensures IsCorrectFilter(Some([]), true) == Success(true)
    ensures forall k :: k in t ==> (UniqueMatch(t, [], k) <==> t.Keys == {k})
    ensures t == map[] ==> Get(svc, t, Some([])) == Failure(NotFoundError(svc.modelName, Some([])))
    ensures forall k :: k in t && t.Keys == {k} ==> Get(svc, t, Some([])) == Success(t[k])
    ensures |t| >= 2 ==> Get(svc, t, Some([])) == Failure(MultipleResultsFound)
    ensures GetMultiple(t, Some([])) == Success(GetAll(t))
  {
    var ks := SortedKeys(t.Keys);
    KeepMatchingAll(ks, t, []);
    EmptyFilterRowsAreAll(t);
    if |t| >= 2 {
      assert ks[0] != ks[1];
      assert SeveralMatches(t, []);
    }
    forall k | k in t
      ensures UniqueMatch(t, [], k) <==> t.Keys == {k}
    {
      if UniqueMatch(t, [], k) {
        forall k' | k' in t.Keys
          ensures k' == k
        {
          assert Matches(t[k'], []);
        }
      }
    }
  }

  /** The empty filter keeps every key, so its rows are `get_all`'s. */
  lemma EmptyFilterRowsAreAll(t: Table)
    ensures GetMultiple(t, Some([])) == Success(GetAll(t))
  {
    KeepMatchingAll(SortedKeys(t.Keys), t, []);
    assert MatchingRows(t, []) == GetAll(t);
  }

  /** `get` and `exists` agree: `get` succeeds exactly when `exists` says
      yes, and fails with `NotFoundError` exactly when it says no. */
  lemma GetAgreesWithExists(svc: Service, t: Table, f: Filter)
    ensures Get(svc, t, Some(f)).Success? <==> Exists(t, Some(f)) == Success(true)
    ensures Get(svc, t, Some(f)) == Failure(NotFoundError(svc.modelName, Some(f)))
        <==> Exists(t, Some(f)) == Success(false)
  {
    MatchCases(t, f);
  }

  /** After a successful `delete`, the same filter finds nothing. */
  lemma DeleteThenGetNotFound(svc: Service, t: Table, f: Filter)
    requires Delete(svc, t, Some(f)).result.Success?
    ensures Get(svc, Delete(svc, t, Some(f)).table, Some(f)) == Failure(NotFoundError(svc.modelName, Some(f)))
    ensures |Delete(svc, t, Some(f)).table| == |t| - 1
  {
    var after := Delete(svc, t, Some(f)).table;
    assert NoMatch(after, f);
  }

  /** What `create` stores, `get` by its id finds again. */
  lemma CreateThenGet(svc: Service, t: Table, m: Model, newId: int)
    requires WellFormed(t)
    requires Create(t, m, newId).result.Success?
    ensures var r := Create(t, m, newId);
      Get(svc, r.table, Some(IdFilter(r.result.value.id))) == Success(r.result.value)
  {
    var r := Create(t, m, newId);
    var key := TargetKey(m, newId);
    assert UniqueMatch(r.table, IdFilter(Some(key)), key);
  }

  /** What `update` stores, `get({"id": id})` finds again. */
  lemma UpdateThenGet(svc: Service, t: Table, m: Model, newId: int)
    requires WellFormed(t)
    requires Update(t, m, newId).result.Success?
    ensures var r := Update(t, m, newId);
      Get(svc, r.table, Some(IdFilter(r.result.value.id))) == Success(r.result.value)
  {
    var key := TargetKey(m, newId);
    assert UniqueMatch(Update(t, m, newId).table, IdFilter(Some(key)), key);
  }

  /** An `update` is refused only for an id-less model whose assigned key
      is taken, and then the table is left as it was. */
  lemma UpdateRefusedOnlyOnTakenKey(t: Table, m: Model, newId: int)
    requires Update(t, m, newId).result.Failure?
    ensures m.id.None? && newId in t
    ensures Update(t, m, newId).table == t
  {
  }
}
