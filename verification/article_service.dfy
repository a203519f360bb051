/** `ArticleService` (src/article/services/service.py): creation guarded
    by an id-uniqueness check, and the random "trending" article. */
module ArticleService {
  import opened Wrappers
  import opened Filters
  import opened Exceptions
  import opened BaseModel
  import opened Store
  import BaseService
  import RandomChoice
  import Schemas
  import ArticleModel

  /** The label `create` hard-codes in its error. */
  const ArticleName := "Статья"

  /** `ArticleService.create`: refuses an article whose id is already
      stored, and otherwise hands it to the generic `create`. A refused or
      failed call leaves the table as it was. */
  function Create(t: Table, m: Model, newId: int): (r: Step<Model>)
    ensures r.result.Failure? ==> r.table == t
    ensures WellFormed(t) ==>
      (r.result == Failure(AlreadyExistsError(ArticleName, Some(IdFilter(m.id))))
       <==> m.id.Some? && m.id.value in t)
    ensures WellFormed(t) && !(m.id.Some? && m.id.value in t) ==> r == BaseService.Create(t, m, newId)
    ensures r.result.Success? ==> r == BaseService.Create(t, m, newId)
    ensures WellFormed(t) ==> WellFormed(r.table)
    ensures t.Keys <= r.table.Keys && forall k :: k in t ==> r.table[k] == t[k]
  {
    var filter := IdFilter(m.id);
    IdFilterSelectsItsKey(t, m.id);
    match BaseService.Exists(t, Some(filter))
    case Failure(e) => Step(Failure(e), t)
    case Success(true) => Step(Failure(AlreadyExistsError(ArticleName, Some(filter))), t)
    case Success(false) => BaseService.Create(t, m, newId)
  }

  /** `get_tranding`: `random.choice(get_all())`. On an empty table this is
      Python's `IndexError`, not a `NotFoundError`. */
  method GetTranding(t: Table) returns (r: Result<Model, Error>)
    ensures r.Success? <==> |t| > 0
    ensures r.Success? ==> r.value in t.Values
    ensures r.Failure? ==> r.error == IndexError
  {
    r := RandomChoice.Choice(BaseService.GetAll(t));
  }

  /** A successful `create` adds exactly the given article under its key
      and changes no other row. */
  lemma CreateAddsOnlyTheArticle(t: Table, m: Model, newId: int)
    ensures var r := Create(t, m, newId); var key := TargetKey(m, newId);
      r.result.Success? ==>
        && key !in t
        && r.table == t[key := WithId(m, Some(key))]
  {
  }

  /** An article built from the id-less schema is never refused as a
      duplicate: given a fresh id from the database it is stored as is. */
  lemma CreateFromSimpleSchema(t: Table, title: string, text: string, newId: int)
    requires WellFormed(t) && newId !in t
    ensures Create(t, ArticleModel.FromSchema(Schemas.ArticleSimpleSchema(title, text)), newId).result
         == Success(Article(Some(newId), title, text, []))
  {
  }

  /** Creating an article that was just stored, again, is refused. */
  lemma CreateTwiceIsRefused(t: Table, m: Model, newId: int, newId': int)
    requires WellFormed(t) && Create(t, m, newId).result.Success?
    ensures var r := Create(t, m, newId);
      Create(r.table, r.result.value, newId').result
        == Failure(AlreadyExistsError(ArticleName, Some(IdFilter(r.result.value.id))))
  {
  }
}
