/** `ArticleModel.from_schema` and the reverse reading of a model into a
    schema that `from_attributes` performs (src/article/models/model.py,
    src/base/schema.py). */
module ArticleModel {
  import opened Wrappers
  import opened Schemas
  import opened BaseModel
  import CommentModel

  /** `ArticleModel.from_schema`: an `ArticleSchema` keeps its id, an
      `ArticleSimpleSchema` leaves it unset; title and text are copied and
      the schema's comments are not. */
  function FromSchema(s: ArticleInput): (m: Model)
    ensures m.Article?
    ensures m.title == s.title && m.text == s.text
    ensures m.comments == []
    ensures m.id.Some? <==> s.ArticleSchema?
    ensures s.ArticleSchema? ==> m.id.value == s.id
  {
    if s.ArticleSchema? then
      Article(Some(s.id), s.title, s.text, [])
    else
      Article(None, s.title, s.text, [])
  }

  /** Reads each loaded comment into a `CommentSchema`; fails if any one
      cannot be read. */
  function CommentsToSchema(cs: seq<Model>): (r: Option<seq<CommentInput>>)
    ensures r.Some? <==> forall i :: 0 <= i < |cs| ==> CommentModel.ToSchema(cs[i]).Some?
    ensures r.Some? ==> |r.value| == |cs|
    ensures r.Some? ==> forall i :: 0 <= i < |cs| ==> CommentModel.ToSchema(cs[i]) == Some(r.value[i])
  {
    if |cs| == 0 then Some([])
    else
      match (CommentModel.ToSchema(cs[0]), CommentsToSchema(cs[1..]))
      case (Some(c), Some(rest)) => Some([c] + rest)
      case _ => None
  }

  /** `ArticleSchema.model_validate(model)`: an article with a positive id
      and readable comments. */
  function ToSchema(m: Model): (r: Option<ArticleInput>)
    ensures r.Some? ==> r.value.ArticleSchema? && ValidArticle(r.value)
    ensures r.Some? <==> m.Article? && m.id.Some? && m.id.value > 0 && CommentsToSchema(m.comments).Some?
    ensures r.Some? ==>
      && m.id == Some(r.value.id)
      && r.value.title == m.title
      && r.value.text == m.text
      && r.value.comments == CommentsToSchema(m.comments).value
  {
    if m.Article? && m.id.Some? && m.id.value > 0 then
      match CommentsToSchema(m.comments)
      case Some(cs) => Some(ArticleSchema(m.id.value, m.title, m.text, cs))
      case None => None
    else None
  }

  /** `ArticleSimpleSchema.model_validate(model)`. */
  function ToSimpleSchema(m: Model): (r: Option<ArticleInput>)
    ensures r.Some? <==> m.Article?
    ensures r.Some? ==> r.value == ArticleSimpleSchema(m.title, m.text)
  {
    if m.Article? then Some(ArticleSimpleSchema(m.title, m.text)) else None
  }

  /** Reading a projected model back gives the schema it came from, less
      the comments, which the projection drops. */
  lemma FromSchemaRoundTrip(s: ArticleInput)
    requires ValidArticle(s)
    ensures s.ArticleSchema? ==> ToSchema(FromSchema(s)) == Some(s.(comments := []))
    ensures s.ArticleSimpleSchema? ==> ToSchema(FromSchema(s)).None?
    ensures ToSimpleSchema(FromSchema(s)) == Some(ArticleSimpleSchema(s.title, s.text))
  {
  }

  /** Two full schemas that differ only in their comments project to the
      same model. */
  lemma FromSchemaIgnoresComments(s: ArticleInput, cs: seq<CommentInput>)
    requires s.ArticleSchema?
    ensures FromSchema(s.(comments := cs)) == FromSchema(s)
  {
  }
}
