/** The SQLAlchemy models as one entity hierarchy: `BaseModel` supplies the
    id shared by `ArticleModel` and `CommentModel` (src/base/model.py,
    src/article/models/model.py, src/comment/models/model.py). */
module BaseModel {
  import opened Wrappers
  import opened Filters

  /** An entity. The id is `None` until the database assigns one. An
      article owns a list of comments; a comment carries the id of its
      article and, once loaded, the article itself. */
  datatype Model =
    | Article(id: Option<int>, title: string, text: string, comments: seq<Model>)
    | Comment(id: Option<int>, text: string, score: int, articleId: int, article: Option<Model>)

  /** The same entity under another id, every other field kept: what the
      database's refresh leaves of a model after assigning its key. */
  function WithId(m: Model, id: Option<int>): (r: Model)
    ensures r.id == id && SameClass(r, m)
    ensures r.Comment? ==> r.articleId == m.articleId
    ensures id == m.id ==> r == m
    ensures r.Article? ==> r.title == m.title && r.text == m.text && r.comments == m.comments
    ensures r.Comment? ==> r.text == m.text && r.score == m.score && r.article == m.article
  {
    match m
    case Article(_, title, text, comments) => Article(id, title, text, comments)
    case Comment(_, text, score, articleId, article) => Comment(id, text, score, articleId, article)
  }

  /** The column names of an entity's table; relationships are not
      columns. */
  function Columns(m: Model): set<string> {
    match m
    case Article(_, _, _, _) => {"id", "title", "text"}
    case Comment(_, _, _, _, _) => {"id", "text", "score", "article_id"}
  }

  /** Setting an id and then the old one back gives the entity it came
      from: the id is the only thing a refresh changes. */
  lemma WithIdRestores(m: Model, id: Option<int>)
    ensures WithId(WithId(m, id), m.id) == m
  {
  }

  /** The value of a column, by its attribute name, or `None` when the
      entity has no such column. */
  function Attr(m: Model, name: string): Option<Value> {
    if name == "id" then Some(IdValue(m.id))
    else
      match m
      case Article(_, title, text, _) =>
        if name == "title" then Some(StrV(title))
        else if name == "text" then Some(StrV(text))
        else None
      case Comment(_, text, score, articleId, _) =>
        if name == "text" then Some(StrV(text))
        else if name == "score" then Some(IntV(score))
        else if name == "article_id" then Some(IntV(articleId))
        else None
  }

  /** A filter key names a value exactly when it is a column of the
      entity, and that value is the column's. */
  lemma AttrReadsColumns(m: Model, name: string)
    ensures Attr(m, name).Some? <==> name in Columns(m)
    ensures name == "id" ==> Attr(m, name) == Some(IdValue(m.id))
    ensures name == "text" ==> Attr(m, name) == Some(StrV(m.text))
    ensures m.Article? && name == "title" ==> Attr(m, name) == Some(StrV(m.title))
    ensures m.Comment? && name == "score" ==> Attr(m, name) == Some(IntV(m.score))
    ensures m.Comment? && name == "article_id" ==> Attr(m, name) == Some(IntV(m.articleId))
  {
  }

  /** `filter_by(**filter)`: every pair of the filter holds of the entity. */
  predicate Matches(m: Model, f: Filter) {
    forall i :: 0 <= i < |f| ==> Attr(m, f[i].0) == Some(f[i].1)
  }

  /** `filter_by(**{})` selects every entity, and a filter that names a
      key which is not a column selects none. */
  lemma MatchesOnlyColumns(m: Model, f: Filter)
    ensures |f| == 0 ==> Matches(m, f)
    ensures (exists i :: 0 <= i < |f| && f[i].0 !in Columns(m)) ==> !Matches(m, f)
  {
  }

  /** Keyword arguments are joined by "and": a filter built from two
      parts matches exactly when both parts do. */
  lemma MatchesConjunction(m: Model, f: Filter, g: Filter)
    ensures Matches(m, f + g) <==> Matches(m, f) && Matches(m, g)
  {
    if Matches(m, f) && Matches(m, g) {
      forall i | 0 <= i < |f + g|
        ensures Attr(m, (f + g)[i].0) == Some((f + g)[i].1)
      {
        if i < |f| {
          assert (f + g)[i] == f[i];
        } else {
          assert (f + g)[i] == g[i - |f|];
        }
      }
    }
    if Matches(m, f + g) {
      forall i | 0 <= i < |f|
        ensures Attr(m, f[i].0) == Some(f[i].1)
      {
        assert (f + g)[i] == f[i];
      }
      forall i | 0 <= i < |g|
        ensures Attr(m, g[i].0) == Some(g[i].1)
      {
        assert (f + g)[i + |f|] == g[i];
      }
    }
  }

  /** The order of a filter's pairs, which `str(filter)` shows, does not
      change which entities it selects. */
  lemma MatchesIgnoresOrder(m: Model, f: Filter, g: Filter)
    requires forall p :: p in f <==> p in g
    ensures Matches(m, f) <==> Matches(m, g)
  {
    if Matches(m, f) {
      forall i | 0 <= i < |g|
        ensures Attr(m, g[i].0) == Some(g[i].1)
      {
        assert g[i] in f;
      }
    }
    if Matches(m, g) {
      forall i | 0 <= i < |f|
        ensures Attr(m, f[i].0) == Some(f[i].1)
      {
        assert f[i] in g;
      }
    }
  }

  /** `isinstance(value, self.__class__)` for the two model classes. */
  predicate SameClass(a: Model, b: Model) {
    (a.Article? && b.Article?) || (a.Comment? && b.Comment?)
  }

  /** What `__eq__` returns: a boolean, or `NotImplemented`. */
  datatype EqAnswer = Answer(b: bool) | NotImplemented

  /** `BaseModel.__eq__`. */
  function DunderEq(self: Model, value: Model): (r: EqAnswer)
    ensures r.NotImplemented? <==> !SameClass(self, value)
    ensures r.Answer? ==> (r.b <==> self.id == value.id)
  {
    if SameClass(self, value) then Answer(self.id == value.id) else NotImplemented
  }

  /** The `==` operator: `a.__eq__(b)`, then the reflected `b.__eq__(a)`,
      then identity, which two objects of different classes never share. */
  function Equal(a: Model, b: Model): (r: bool)
    ensures r <==> SameClass(a, b) && a.id == b.id
  {
    match DunderEq(a, b)
    case Answer(x) => x
    case NotImplemented =>
      match DunderEq(b, a)
      case Answer(x) => x
      case NotImplemented => false
  }

  /** Equality looks at the id and nothing else. */
  lemma EqualIgnoresOtherFields(a: Model, a': Model, b: Model)
    requires SameClass(a, a') && a.id == a'.id
    ensures Equal(a', b) == Equal(a, b)
  {
  }

  /** Equality is an equivalence relation. */
  lemma EqualIsEquivalence(a: Model, b: Model, c: Model)
    ensures Equal(a, a)
    ensures Equal(a, b) == Equal(b, a)
    ensures Equal(a, b) && Equal(b, c) ==> Equal(a, c)
  {
  }

  /** An article never equals a comment, whatever the ids. */
  lemma DifferentClassesNeverEqual(a: Model, b: Model)
    requires a.Article? && b.Comment?
    ensures !Equal(a, b) && !Equal(b, a)
  {
  }

  /** Two unsaved entities of the same class compare equal, since both
      ids are `None`. */
  lemma UnsavedEntitiesAreEqual(a: Model, b: Model)
    requires SameClass(a, b) && a.id.None? && b.id.None?
    ensures Equal(a, b)
  {
  }
}
