/** The pydantic input schemas of articles and comments
    (src/comment/schemas/schema.py, src/article/schemas/schema.py,
    src/base/schema.py) and the field constraints pydantic enforces on them. */
module Schemas {
  import opened Wrappers
  import opened Exceptions

  /** `CommentSimpleSchema` (no id) and `CommentSchema` (with id). */
  datatype CommentInput =
    | CommentSimpleSchema(text: string, score: int, articleId: int)
    | CommentSchema(id: int, text: string, score: int, articleId: int)

  /** `ArticleSimpleSchema` (no id) and `ArticleSchema` (with id and the
      article's comments). */
  datatype ArticleInput =
    | ArticleSimpleSchema(title: string, text: string)
    | ArticleSchema(id: int, title: string, text: string, comments: seq<CommentInput>)

  /** The constraints: `score` in [0, 5], `article_id` >= 1, and for the
      full schema `id` > 0. The text is unconstrained. */
  predicate ValidComment(c: CommentInput) {
    && 0 <= c.score <= 5
    && c.articleId >= 1
    && (c.CommentSchema? ==> c.id > 0)
  }

  /** An article schema constrains only its id and, in the full schema,
      its comments, each of which must be a valid full `CommentSchema`. */
  predicate ValidArticle(a: ArticleInput) {
    a.ArticleSchema? ==>
      && a.id > 0
      && forall i :: 0 <= i < |a.comments| ==> a.comments[i].CommentSchema? && ValidComment(a.comments[i])
  }

  /** The fields pydantic reports as violating their constraint. */
  function CommentViolations(c: CommentInput): set<string> {
    (if 0 <= c.score <= 5 then {} else {"score"})
    + (if c.articleId >= 1 then {} else {"article_id"})
    + (if c.CommentSchema? && c.id <= 0 then {"id"} else {})
  }

  /** Parsing a comment input: it is accepted unchanged exactly when it is
      valid; otherwise the error names every offending field and no other. */
  function ValidateComment(c: CommentInput): (r: Result<CommentInput, Error>)
    ensures r.Success? <==> ValidComment(c)
    ensures r.Success? ==> r.value == c
    ensures r.Failure? ==> r.error.ValidationError? && r.error.fields != {}
    ensures r.Failure? ==>
      && ("score" in r.error.fields <==> !(0 <= c.score <= 5))
      && ("article_id" in r.error.fields <==> c.articleId < 1)
      && ("id" in r.error.fields <==> c.CommentSchema? && c.id <= 0)
      && r.error.fields <= {"score", "article_id", "id"}
  {
    var bad := CommentViolations(c);
    if bad == {} then Success(c) else Failure(ValidationError(bad))
  }

  /** The score bounds are inclusive at both ends. */
  lemma ScoreBoundaries(text: string)
    ensures ValidateComment(CommentSimpleSchema(text, 0, 1)).Success?
    ensures ValidateComment(CommentSimpleSchema(text, 5, 1)).Success?
    ensures ValidateComment(CommentSimpleSchema(text, -1, 1)) == Failure(ValidationError({"score"}))
    ensures ValidateComment(CommentSimpleSchema(text, 6, 1)) == Failure(ValidationError({"score"}))
  {
    assert CommentViolations(CommentSimpleSchema(text, -1, 1)) == {"score"};
    assert CommentViolations(CommentSimpleSchema(text, 6, 1)) == {"score"};
  }

  /** `article_id` must be at least 1. */
  lemma ArticleIdBoundary(text: string, score: int)
    requires 0 <= score <= 5
    ensures ValidateComment(CommentSimpleSchema(text, score, 1)).Success?
    ensures ValidateComment(CommentSimpleSchema(text, score, 0)) == Failure(ValidationError({"article_id"}))
  {
    assert CommentViolations(CommentSimpleSchema(text, score, 0)) == {"article_id"};
  }

  /** The text never decides validity. */
  lemma TextIsUnconstrained(c: CommentInput, text: string)
    ensures ValidComment(c.(text := text)) <==> ValidComment(c)
  {
  }

  /** The full schema has the simple schema's constraints plus a positive id. */
  lemma FullSchemaAddsId(id: int, text: string, score: int, articleId: int)
    ensures ValidComment(CommentSchema(id, text, score, articleId))
        <==> ValidComment(CommentSimpleSchema(text, score, articleId)) && id > 0
  {
  }
}
