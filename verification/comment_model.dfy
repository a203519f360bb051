/** `CommentModel.from_schema` and the reverse reading of a model into a
    schema that `from_attributes` performs (src/comment/models/model.py,
    src/base/schema.py). */
module CommentModel {
  import opened Wrappers
  import opened Schemas
  import opened BaseModel

  /** `CommentModel.from_schema`: a `CommentSchema` keeps its id, a
      `CommentSimpleSchema` leaves it unset; the `article` relationship is
      never filled in. */
  function FromSchema(s: CommentInput): (m: Model)
    ensures m.Comment?
    ensures m.text == s.text && m.score == s.score && m.articleId == s.articleId
    ensures m.article.None?
    ensures m.id.Some? <==> s.CommentSchema?
    ensures s.CommentSchema? ==> m.id.value == s.id
  {
    if s.CommentSchema? then
      Comment(Some(s.id), s.text, s.score, s.articleId, None)
    else
      Comment(None, s.text, s.score, s.articleId, None)
  }

  /** `CommentSchema.model_validate(model)`: reading a comment model back
      into the full schema, which needs an id and the field constraints. */
  function ToSchema(m: Model): (r: Option<CommentInput>)
    ensures r.Some? <==> m.Comment? && m.id.Some? && m.id.value > 0 && 0 <= m.score <= 5 && m.articleId >= 1
    ensures r.Some? ==> r.value.CommentSchema? && ValidComment(r.value)
    ensures r.Some? ==>
      && Some(r.value.id) == m.id
      && r.value.text == m.text
      && r.value.score == m.score
      && r.value.articleId == m.articleId
  {
    if m.Comment? && m.id.Some? then
      var s := CommentSchema(m.id.value, m.text, m.score, m.articleId);
      if ValidComment(s) then Some(s) else None
    else None
  }

  /** `CommentSimpleSchema.model_validate(model)`: the id is not read. */
  function ToSimpleSchema(m: Model): (r: Option<CommentInput>)
    ensures r.Some? <==> m.Comment? && 0 <= m.score <= 5 && m.articleId >= 1
    ensures r.Some? ==> r.value.CommentSimpleSchema? && ValidComment(r.value)
    ensures r.Some? ==>
      && r.value.text == m.text
      && r.value.score == m.score
      && r.value.articleId == m.articleId
  {
    if m.Comment? then
      var s := CommentSimpleSchema(m.text, m.score, m.articleId);
      if ValidComment(s) then Some(s) else None
    else None
  }

  /** The simple schema with the same text, score and article id. */
  function DropId(s: CommentInput): CommentInput {
    CommentSimpleSchema(s.text, s.score, s.articleId)
  }

  /** Reading a projected model back gives the schema it came from: the
      full schema exactly, and in either branch the id-less part. */
  lemma FromSchemaRoundTrip(s: CommentInput)
    requires ValidComment(s)
    ensures s.CommentSchema? ==> ToSchema(FromSchema(s)) == Some(s)
    ensures s.CommentSimpleSchema? ==> ToSchema(FromSchema(s)).None?
    ensures ToSimpleSchema(FromSchema(s)) == Some(DropId(s))
  {
  }

  /** The input bounds survive the projection. */
  lemma FromSchemaKeepsBounds(s: CommentInput)
    requires ValidComment(s)
    ensures 0 <= FromSchema(s).score <= 5
    ensures FromSchema(s).articleId >= 1
  {
  }
}
