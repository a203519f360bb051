/** `CommentService` (src/comment/services/service.py): creation guarded
    by a check that the article exists and then by an id-uniqueness
    check, and the random "trending" comment. Both tables take part, so
    the state is the pair of them. */
module CommentService {
  import opened Wrappers
  import opened Filters
  import opened Exceptions
  import opened BaseModel
  import opened Store
  import BaseService
  import ArticleService
  import RandomChoice
  import Schemas
  import CommentModel

  /** The label `create` hard-codes in its "already exists" error. */
  const CommentName := "Коментарий"

  datatype Db = Db(articles: Table, comments: Table)

  datatype DbStep<T> = DbStep(result: Result<T, Error>, db: Db)

  /** Both tables well formed and of the right class, and every comment
      naming a stored article. */
  predicate Consistent(db: Db) {
    && WellFormed(db.articles)
    && WellFormed(db.comments)
    && (forall k :: k in db.articles ==> db.articles[k].Article?)
    && (forall k :: k in db.comments ==> db.comments[k].Comment? && db.comments[k].articleId in db.articles)
  }

  /** The first guard of `create`: the referenced article must exist. */
  function CheckArticle(articles: Table, articleId: int): (r: Result<(), Error>)
    ensures WellFormed(articles) ==> (r.Success? <==> articleId in articles)
    ensures WellFormed(articles) && r.Failure? ==>
      r.error == NotFoundError(ArticleService.ArticleName, Some(IdFilter(Some(articleId))))
  {
    var articleFilter := IdFilter(Some(articleId));
    IdFilterSelectsItsKey(articles, Some(articleId));
    match BaseService.Exists(articles, Some(articleFilter))
    case Failure(e) => Failure(e)
    case Success(false) => Failure(NotFoundError(ArticleService.ArticleName, Some(articleFilter)))
    case Success(true) => Success(())
  }

  /** The second guard of `create`: no comment may already have the id. */
  function CheckCommentId(comments: Table, id: Option<int>): (r: Result<(), Error>)
    ensures WellFormed(comments) ==> (r.Success? <==> !(id.Some? && id.value in comments))
    ensures WellFormed(comments) && r.Failure? ==>
      r.error == AlreadyExistsError(CommentName, Some(IdFilter(id)))
    ensures r.Failure? ==> !r.error.NotFoundError?
  {
    var commentFilter := IdFilter(id);
    IdFilterSelectsItsKey(comments, id);
    match BaseService.Exists(comments, Some(commentFilter))
    case Failure(e) => Failure(e)
    case Success(true) => Failure(AlreadyExistsError(CommentName, Some(commentFilter)))
    case Success(false) => Success(())
  }

  /** `CommentService.create`: a missing article is reported first, as a
      `NotFoundError` on the article; then a stored comment id as an
      `AlreadyExistsError`; only then is the comment inserted. The article
      table is never written, and a refused or failed call writes
      nothing. */
  function Create(db: Db, m: Model, newId: int): (r: DbStep<Model>)
    requires m.Comment?
    ensures r.db.articles == db.articles
    ensures r.result.Failure? ==> r.db == db
    ensures WellFormed(db.articles) ==>
      (r.result == Failure(NotFoundError(ArticleService.ArticleName, Some(IdFilter(Some(m.articleId)))))
       <==> m.articleId !in db.articles)
    ensures WellFormed(db.articles) && WellFormed(db.comments) && m.articleId in db.articles ==>
      (r.result == Failure(AlreadyExistsError(CommentName, Some(IdFilter(m.id))))
       <==> m.id.Some? && m.id.value in db.comments)
    ensures WellFormed(db.articles) && WellFormed(db.comments) && r.result.Failure? ==>
      r.result.error.NotFoundError? || r.result.error.AlreadyExistsError? || r.result.error == IntegrityError
    ensures WellFormed(db.articles) && r.result.Success? ==> m.articleId in db.articles
    ensures r.result.Success? ==> Step(r.result, r.db.comments) == BaseService.Create(db.comments, m, newId)
    ensures WellFormed(db.articles) && WellFormed(db.comments)
              && m.articleId in db.articles && !(m.id.Some? && m.id.value in db.comments) ==>
      Step(r.result, r.db.comments) == BaseService.Create(db.comments, m, newId)
  {
    match CheckArticle(db.articles, m.articleId)
    case Failure(e) => DbStep(Failure(e), db)
    case Success(_) =>
      match CheckCommentId(db.comments, m.id)
      case Failure(e) => DbStep(Failure(e), db)
      case Success(_) =>
        var step := BaseService.Create(db.comments, m, newId);
        DbStep(step.result, db.(comments := step.table))
  }

  lemma InsertCommentKeepsConsistency(db: Db, key: int, c: Model)
    requires Consistent(db)
    requires key !in db.comments && c.Comment? && c.id == Some(key) && c.articleId in db.articles
    ensures Consistent(db.(comments := db.comments[key := c]))
  {
  }

  /** `create` keeps the store consistent: whatever the outcome, every
      comment still names a stored article and every row sits under its
      own id. */
  lemma CreateKeepsConsistency(db: Db, m: Model, newId: int)
    requires m.Comment? && Consistent(db)
    ensures Consistent(Create(db, m, newId).db)
  {
    var r := Create(db, m, newId);
    if r.result.Success? {
      var key := TargetKey(m, newId);
      var step := BaseService.Create(db.comments, m, newId);
      assert step.result.Success? && step.table == r.db.comments;
      assert key !in db.comments;
      assert step.table == db.comments[key := WithId(m, Some(key))];
      InsertCommentKeepsConsistency(db, key, WithId(m, Some(key)));
    }
  }

  /** `get_trending`: `random.choice(get_all())`; `IndexError` when there
      are no comments. */
  method GetTrending(db: Db) returns (r: Result<Model, Error>)
    ensures r.Success? <==> |db.comments| > 0
    ensures r.Success? ==> r.value in db.comments.Values
    ensures r.Failure? ==> r.error == IndexError
  {
    r := RandomChoice.Choice(BaseService.GetAll(db.comments));
  }

  /** The article check runs first: when the article is missing and the
      comment id is also taken, the caller sees the missing article. */
  lemma ArticleCheckComesFirst(db: Db, m: Model, newId: int)
    requires m.Comment? && WellFormed(db.articles) && WellFormed(db.comments)
    requires m.articleId !in db.articles
    requires m.id.Some? && m.id.value in db.comments
    ensures Create(db, m, newId).result
         == Failure(NotFoundError(ArticleService.ArticleName, Some(IdFilter(Some(m.articleId)))))
  {
  }

  /** A successful `create` adds exactly the given comment under its key
      and changes nothing else. */
  lemma CreateInsertsExactlyTheComment(db: Db, m: Model, newId: int)
    requires m.Comment?
    ensures var r := Create(db, m, newId); var key := TargetKey(m, newId);
      r.result.Success? ==>
      && key !in db.comments
      && r.result.value == WithId(m, Some(key))
      && r.db == db.(comments := db.comments[key := WithId(m, Some(key))])
  {
  }

  /** Creating an article keeps every comment's article reference valid. */
  lemma ArticleCreateKeepsConsistency(db: Db, m: Model, newId: int)
    requires Consistent(db) && m.Article?
    ensures Consistent(db.(articles := ArticleService.Create(db.articles, m, newId).table))
  {
    var r := ArticleService.Create(db.articles, m, newId);
    assert db.articles.Keys <= r.table.Keys;
  }

  /** A valid id-less comment on a stored article, given a fresh id from
      the database, is stored as given under that id. */
  lemma CreateFromSimpleSchema(db: Db, s: Schemas.CommentInput, newId: int)
    requires Consistent(db)
    requires s.CommentSimpleSchema? && Schemas.ValidComment(s)
    requires s.articleId in db.articles && newId !in db.comments
    ensures Create(db, CommentModel.FromSchema(s), newId).result
         == Success(Comment(Some(newId), s.text, s.score, s.articleId, None))
  {
    var m := CommentModel.FromSchema(s);
    assert m == Comment(None, s.text, s.score, s.articleId, None);
    assert CheckArticle(db.articles, m.articleId).Success?;
    assert CheckCommentId(db.comments, m.id).Success?;
    assert TargetKey(m, newId) == newId;
    var step := BaseService.Create(db.comments, m, newId);
    assert step.result == Success(Comment(Some(newId), s.text, s.score, s.articleId, None));
    assert Create(db, m, newId).result == step.result;
  }

  /** The reference check lives only in `create`: over the abstract
      store, which keeps no constraint across tables, the inherited
      `update` can store a comment whose article does not exist. */
  lemma UpdateCanBreakConsistency()
    ensures var db := Db(map[1 := Article(Some(1), "t", "x", [])], map[]);
      var m := Comment(Some(1), "c", 5, 2, None);
      && Consistent(db)
      && !Consistent(db.(comments := BaseService.Update(db.comments, m, 1).table))
  {
    var db := Db(map[1 := Article(Some(1), "t", "x", [])], map[]);
    var after := BaseService.Update(db.comments, Comment(Some(1), "c", 5, 2, None), 1).table;
    assert after[1].articleId == 2;
  }

  /** Over the abstract store, deleting an article leaves its comments
      pointing at nothing: the generic `delete` does not cascade. */
  lemma ArticleDeleteCanOrphanComments()
    ensures var db := Db(map[1 := Article(Some(1), "t", "x", [])], map[1 := Comment(Some(1), "c", 5, 1, None)]);
      var r := BaseService.Delete(BaseService.Service(ArticleService.ArticleName), db.articles, Some(IdFilter(Some(1))));
      && Consistent(db)
      && r.result.Success?
      && !Consistent(db.(articles := r.table))
  {
    var articles := map[1 := Article(Some(1), "t", "x", [])];
    var comments := map[1 := Comment(Some(1), "c", 5, 1, None)];
    var db := Db(articles, comments);
    assert Consistent(db);
    var f := IdFilter(Some(1));
    assert Matches(articles[1], f);
    assert UniqueMatch(articles, f, 1);
    var r := BaseService.Delete(BaseService.Service(ArticleService.ArticleName), articles, Some(f));
    assert r.result.Success?;
    assert 1 !in r.table;
    assert comments[1].articleId !in r.table;
  }
}
