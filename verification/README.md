# Article/comment entity services — a Dafny model

This project models the service layer of a small CRUD backend for
articles and their comments. The store is abstract: each table is a finite
map from primary key to entity. Every service call is a pure function
from the inputs and the table(s) to a result and the new table(s). The
result is either a value or one of the errors the code raises.

Modules, following the source files:

- `Wrappers`: `Option` and `Result`.
- `Filters`: the search filter as an insertion-ordered dict (a sequence
  of attribute/value pairs), its truthiness, and its `str()` rendering.
- `Exceptions`: the error values and the 404/403 HTTP exceptions with
  their detail strings (`src/exceptions/exception.py`).
- `Schemas`: the pydantic input schemas and their field constraints.
- `BaseModel`: one entity datatype, `Article | Comment`, sharing
  `id: Option<int>`; column access; `filter_by` matching; identity
  equality (`src/base/model.py`).
- `ArticleModel`, `CommentModel`: `from_schema`, and the reverse reading of
  a model into a schema that `from_attributes` performs.
- `Store`: the table and the repository calls (`create`, `merge`,
  `delete`, `one_or_none`, `all`) that the services use.
- `BaseService`: `get`, `get_multiple`, `exists`, `get_all`, `create`,
  `update`, `delete`, `_is_correct_filter`.
- `RandomChoice`: `random.choice`, with the choice left nondeterministic.
- `ArticleService`, `CommentService`: the guarded `create`s and the
  "trending" pick. The comment service works on both tables.

The model follows what the code does:

- Only a `None` filter is refused, with a `ValueError`. An empty dict
  `{}` passes and selects every row. `get_multiple` does no check at
  all; a `None` filter there fails only when Python unpacks it with
  `**`, as a `TypeError`.
- "Trending" on an empty table fails with Python's `IndexError` from
  `random.choice`, not with `NotFoundError`.
- `update` is `session.merge`. A model with an id replaces the row with
  that id, or is inserted when there is none, and never fails. A model
  without an id becomes a new row exactly as with `create`: a taken
  database-assigned key is an `IntegrityError`, and no existing row is
  replaced.
- `one_or_none` raises when two or more rows match. So `get`, `exists`
  and therefore `delete` fail on such a filter, and a `delete` only
  ever succeeds when exactly one row matches.
- There is no cache-aside read path in the service: the router calls
  `get_cached`, which the article service does not define.

## Model

| member | source | states |
|---|---|---|
| `BaseService.IsCorrectFilter` | src/base/service.py:185-209 | only `None` is a wrong filter; with `raise_exc` it is a `ValueError` with the fixed message, without it `False`; `{}` is accepted |
| `BaseService.Get` | src/base/service.py:48-77 | `None` filter is a `ValueError`; success exactly when one row matches, and the row returned is that row; no match is `NotFoundError(model_name, filter)`; two or more is `MultipleResultsFound` |
| `BaseService.GetMultiple` | src/base/service.py:79-101 | no filter validation: fails only on `None` (`TypeError`); returns only rows of the table that match, and every matching row; in a well-formed table no row appears twice |
| `BaseService.Exists` | src/base/service.py:103-126 | `None` filter is a `ValueError`; fails exactly when several rows match; otherwise true exactly when some stored row matches |
| `BaseService.GetAll` | src/base/service.py:128-147 | as many rows as the table, each a stored row, every stored row present, no id repeated in a well-formed table |
| `BaseService.Create` | src/base/service.py:45-46 | delegates to the store's insert unchanged; succeeds exactly when the target key is free |
| `BaseService.Update` | src/base/service.py:149-156 | delegates to the store's merge unchanged; never fails for a model with an id; for an id-less model it is exactly `create` |
| `BaseService.UpdateThenGet` | src/base/service.py:149-156 | in a well-formed table, what `update` stores, `get({"id": id})` finds again |
| `BaseService.UpdateRefusedOnlyOnTakenKey` | src/base/repository.py:74-77 | a refused `update` is an id-less model on a taken database-assigned key, and leaves the table unchanged |
| `BaseService.Delete` | src/base/service.py:158-170 | `None` filter is a `ValueError`; nothing matching is `NotFoundError` and several is `MultipleResultsFound`, each leaving the table unchanged; success exactly when one row matches, and it removes exactly the matching rows and keeps the others unchanged |
| `BaseService.NoneFilterIgnoresTable` | src/base/service.py:64-71 | a `None` filter gives the same outcome from `get`, `exists` and `delete` whatever the table holds, i.e. it is refused before any store access |
| `BaseService.EmptyFilterSelectsEveryRow` | src/base/service.py:202-209 | `{}` passes the filter check and matches every row: `get` returns the only row, is `NotFoundError` on an empty table and `MultipleResultsFound` on two or more rows; `get_multiple({})` equals `get_all()` |
| `BaseService.GetAgreesWithExists` | src/base/service.py:122-126 | `get` succeeds exactly when `exists` is true, and raises `NotFoundError` exactly when `exists` is false |
| `BaseService.DeleteThenGetNotFound` | src/base/service.py:166-170 | after a successful `delete`, `get` with the same filter is `NotFoundError`, and the table has one row fewer |
| `BaseService.CreateThenGet` | src/base/service.py:45-46 | what `create` stores, `get({"id": id})` finds again |
| `Store.OneOrNone` | src/base/repository.py:31-35 | nothing exactly when no row matches; the unique matching row when one does; `MultipleResultsFound` exactly when two or more do |
| `Store.Insert` | src/base/repository.py:43-56 | the row goes under the model's id, or the database-assigned one; a taken key is an `IntegrityError` with the table unchanged; otherwise exactly one row is added and the others are unchanged |
| `Store.Merge` | src/base/repository.py:58-78 | a model with an id replaces or adds the row under that id and always succeeds; an id-less model is inserted under the assigned key, an `IntegrityError` with the table unchanged when that key is taken, and never replaces an existing row; no other row changes |
| `Store.DeleteUniqueMatch` | src/base/repository.py:80-88 | a bulk delete by a filter selecting exactly one row removes just that row |
| `Store.DeleteWhere` | src/base/repository.py:80-88 | removes exactly the matching rows and keeps the rest unchanged |
| `Filters.ReprFilter` | src/exceptions/exception.py:14 | `str(filter)` is wrapped in braces and is `{}` exactly for the empty filter; otherwise a quoted key follows the brace |
| `Filters.ReprFilterStartsWithFirstPair` | src/exceptions/exception.py:14 | a non-empty filter prints its first pair right after the brace: `{'<key>': <value>`, its key quoted and its value in `repr` form |
| `Filters.ReprIdFilter` | src/exceptions/exception.py:28 | the id filters the services raise with print as `{'id': <n>}` or `{'id': None}` |
| `Exceptions.NotFound` | src/exceptions/exception.py:5-16 | status 404; detail starts `Не найдена сущность "<name>"`; the detail is just that prefix exactly when the filter is `None` or `{}`; otherwise it is exactly that prefix followed by ` по фильтру <filter>` |
| `Exceptions.AlreadyExists` | src/exceptions/exception.py:19-31 | status 403; detail starts `Сущность "<name>"` and always ends ` уже существует`; ` с <filter>` sits between them exactly when the filter is non-empty |
| `Exceptions.AsHttpException` | src/exceptions/exception.py:5-31 | only the two project exceptions are HTTP exceptions: status 404 or 403, with the detail built from the error's own entity name and filter |
| `Exceptions.NotFoundNameRoundTrip` | src/exceptions/exception.py:12-14 | for an entity name with no double quote, the name can be read back out of a 404 detail whatever the filter |
| `Exceptions.AlreadyExistsNameRoundTrip` | src/exceptions/exception.py:26-29 | for an entity name with no double quote, the name can be read back out of a 403 detail whatever the filter |
| `Exceptions.DetailsNeverCoincide` | src/exceptions/exception.py:12-26 | no 404 detail equals any 403 detail |
| `BaseModel.WithId` | src/base/repository.py:53-56 | the refreshed entity carries the key the store wrote; every other field, including its class, is kept; an unchanged id gives back the same entity |
| `BaseModel.WithIdRestores` | src/base/repository.py:53-56 | the id is the only thing the refresh changes: putting the old id back gives the original entity |
| `BaseModel.AttrReadsColumns` | src/base/service.py:72 | a filter key names a value exactly when it is one of the entity's columns (`id`, `title`, `text` for an article; `id`, `text`, `score`, `article_id` for a comment), and the value is that column's |
| `BaseModel.MatchesOnlyColumns` | src/base/service.py:98 | `filter_by(**{})` selects every entity, and a filter naming a non-column selects none |
| `BaseModel.MatchesConjunction` | src/base/service.py:123 | `filter_by` joins its keyword arguments by "and": a combined filter matches exactly when both parts do |
| `BaseModel.MatchesIgnoresOrder` | src/base/service.py:169 | the order of a filter's pairs does not change which rows it selects |
| `BaseModel.DunderEq` | src/base/model.py:23-26 | `NotImplemented` exactly for different classes; otherwise true exactly when the ids are equal |
| `BaseModel.Equal` | src/base/model.py:23-26 | the `==` operator is true exactly for same-class entities with equal ids |
| `BaseModel.EqualIgnoresOtherFields` | src/base/model.py:25 | changing any field but `id` does not change equality |
| `BaseModel.EqualIsEquivalence` | src/base/model.py:23-25 | equality is reflexive, symmetric and transitive |
| `BaseModel.DifferentClassesNeverEqual` | src/base/model.py:26 | an article and a comment are never equal, in either order |
| `BaseModel.UnsavedEntitiesAreEqual` | src/base/model.py:25 | two unsaved entities of one class (both ids `None`) compare equal |
| `Schemas.ValidateComment` | src/comment/schemas/schema.py:14-19 | accepted unchanged exactly when score is in [0,5], `article_id` >= 1 and, for the full schema, id > 0; otherwise the error names exactly the offending fields |
| `Schemas.ScoreBoundaries` | src/comment/schemas/schema.py:15 | score 0 and 5 are accepted; -1 and 6 are rejected on `score` alone |
| `Schemas.ArticleIdBoundary` | src/comment/schemas/schema.py:16 | `article_id` 1 is accepted and 0 rejected |
| `Schemas.TextIsUnconstrained` | src/comment/schemas/schema.py:14 | the text never affects validity |
| `Schemas.FullSchemaAddsId` | src/comment/schemas/schema.py:19 | the full schema is valid exactly when the simple one is and its id is positive |
| `CommentModel.FromSchema` | src/comment/models/model.py:22-48 | a comment; text, score and `article_id` copied; `article` never set; id present exactly for `CommentSchema`, and then equal to the schema's |
| `CommentModel.ToSchema` | src/base/schema.py:9-23 | a model reads into `CommentSchema` exactly when it is a comment with a positive id, score in [0,5] and `article_id` >= 1; the schema carries the model's id, text, score and `article_id` |
| `CommentModel.ToSimpleSchema` | src/comment/schemas/schema.py:5-16 | a model reads into `CommentSimpleSchema` exactly when it is a comment with score in [0,5] and `article_id` >= 1; the schema carries the model's text, score and `article_id` |
| `CommentModel.FromSchemaRoundTrip` | src/comment/models/model.py:36-48 | reading the projected model back gives the full schema exactly, nothing full for a simple schema, and in both branches the id-less part |
| `CommentModel.FromSchemaKeepsBounds` | src/comment/models/model.py:39-47 | a valid input gives a model with score in [0,5] and `article_id` >= 1 |
| `ArticleModel.FromSchema` | src/article/models/model.py:18-42 | an article; title and text copied; no comments; id present exactly for `ArticleSchema`, and then equal to the schema's |
| `ArticleModel.CommentsToSchema` | src/article/schemas/schema.py:27 | reading an article's comments succeeds exactly when every comment reads into `CommentSchema`, and then gives one schema per comment, in order, each the one that comment reads into |
| `ArticleModel.ToSchema` | src/article/schemas/schema.py:17-28 | a model reads into `ArticleSchema` exactly when it is an article with a positive id whose comments all read into `CommentSchema`; the schema is valid and carries the model's id, title, text and those comment schemas |
| `ArticleModel.ToSimpleSchema` | src/article/schemas/schema.py:5-14 | any article reads into the simple schema with its title and text |
| `ArticleModel.FromSchemaRoundTrip` | src/article/models/model.py:32-42 | reading the projected model back gives the full schema without its comments, nothing full for a simple schema, and in both branches title and text |
| `ArticleModel.FromSchemaIgnoresComments` | src/article/models/model.py:32-37 | the schema's comments do not affect the model |
| `RandomChoice.Choice` | src/article/services/service.py:46 | an element of the list, or `IndexError` exactly when it is empty |
| `ArticleService.Create` | src/article/services/service.py:29-40 | a failure leaves the table unchanged; in a well-formed table `AlreadyExistsError('Статья', {"id": id})` exactly when that id is stored; an article that is id-less or whose id is free goes to the generic create, and its outcome is the generic create's; well-formedness is kept, and no stored article is removed or changed |
| `ArticleService.GetTranding` | src/article/services/service.py:42-46 | on a non-empty table some stored article; on an empty one `IndexError`, not `NotFoundError` |
| `ArticleService.CreateAddsOnlyTheArticle` | src/article/services/service.py:40 | a success adds exactly the article under a free key and nothing else |
| `ArticleService.CreateFromSimpleSchema` | src/article/services/service.py:36-40 | an article from the id-less schema, given a fresh database id, is stored as is and never refused as a duplicate |
| `ArticleService.CreateTwiceIsRefused` | src/article/services/service.py:36-39 | creating a just-stored article again is `AlreadyExistsError` with its id |
| `CommentService.CheckArticle` | src/comment/services/service.py:46-50 | in a well-formed article table it passes exactly when the article id is stored, else `NotFoundError('Статья', {"id": article_id})` |
| `CommentService.CheckCommentId` | src/comment/services/service.py:52-54 | in a well-formed comment table it passes exactly when the id is not stored, else `AlreadyExistsError('Коментарий', {"id": id})` |
| `CommentService.Create` | src/comment/services/service.py:34-55 | articles never written; any failure writes nothing; `NotFoundError` on the article exactly when it is missing; with the article present, `AlreadyExistsError` exactly when the id is taken; no other failure but an integrity error; with the article present and the id free, the outcome is the generic create's |
| `CommentService.CreateKeepsConsistency` | src/comment/services/service.py:46-55 | well-formed tables and "every comment names a stored article" hold after any `create` |
| `CommentService.GetTrending` | src/comment/services/service.py:57-61 | on a non-empty table some stored comment; on an empty one `IndexError` |
| `CommentService.ArticleCheckComesFirst` | src/comment/services/service.py:47-54 | with the article missing and the comment id taken, the result is `NotFoundError` on the article |
| `CommentService.CreateInsertsExactlyTheComment` | src/comment/services/service.py:55 | a success adds exactly that comment under a free key and nothing else |
| `CommentService.ArticleCreateKeepsConsistency` | src/article/services/service.py:36-40 | creating an article keeps every comment's reference valid |
| `CommentService.CreateFromSimpleSchema` | src/comment/services/service.py:44-55 | a valid id-less comment on a stored article, with a fresh id, is stored as given under that id |
| `CommentService.UpdateCanBreakConsistency` | src/base/service.py:149-156 | over the abstract store, which has no cross-table constraint, the inherited `update` can store a comment whose article does not exist |
| `CommentService.ArticleDeleteCanOrphanComments` | src/base/service.py:158-170 | over the abstract store, which has no cross-table constraint, deleting an article leaves its comments dangling; the generic `delete` does not cascade |

## Left out

- The cache-aside read path (`get_cached`, Redis, TTL): the service defines no such method, and `src/storage/redis.py` only opens a client.
- SQLAlchemy sessions, flushes and refreshes: replaced by the map store.
- The `article` relationship of a comment (`lazy='selectin'`): it is loaded on every read and by the refresh after insert, but here it stays as the caller set it, `None` for every comment built from a schema. So `CommentService.CreateFromSimpleSchema` returns a comment whose `article` is `None`, where the refreshed source object carries its article.
- The `comments` relationship (`lazy='selectin'`): a stored article keeps the `comments` it was inserted with, and later comment inserts do not update it. So the articles that `get`, `get_all` and `get_tranding` return do not carry the current comments of the comment table. Adding an article with comments does not cascade them into the comment table either. Comment references are stated separately, by `CommentService.Consistent` over the comment table.
- The id the database assigns on insert: the `newId` parameter of `create` and `update`, because autoincrement is the database's.
- The order of `scalars().all()`: the model lists rows by ascending id, but contracts promise only membership, coverage and no repeats.
- Eager loading (`_add_model_attrs_to_statement`): it is a performance hint, and its result is discarded anyway.
- Integer width: `id` and `article_id` are 32-bit PostgreSQL `INTEGER` columns reached through asyncpg, and the model's ids are unbounded. An id of 2^31 or more sent to `get`, `exists` or `delete` fails in the driver with a `DataError`. Here it is simply a key that is not stored, so `get` gives `NotFoundError`, and `CommentService.Create` with such an `article_id` reports the article as not found.
- Repeated keys in a filter: a filter is a list of pairs, which may repeat a key that a Python dict cannot hold twice. Every filter the services build has distinct keys.
- Filter keys that are not columns: SQLAlchemy raises `InvalidRequestError` for these; here they simply match no row.
- Comparisons between values of different kinds (an int column against a string): these are the database's coercion; here they never match.
- Escaping inside `str(filter)`: string values are printed between single quotes with no escaping.
- `Filters.NatToString`, `Filters.IntToString`: the decimal digits of an int are produced by the function body. No contract states that they read back to the same number, so the `{'id': <n>}` rendering rests on that body.
- How FastAPI renders `ValueError`, `TypeError`, `IndexError`, `MultipleResultsFound` and `IntegrityError`: these stay symbolic errors.
- Pydantic error messages and their order: a validation error carries only the set of offending field names.
- The foreign key from comment to article that `CommentModel` declares (`ForeignKey('article.id')`): the store is abstracted to one map per table, with no constraints across tables. With that key in place, the stores shown by `CommentService.UpdateCanBreakConsistency` and `CommentService.ArticleDeleteCanOrphanComments` would be `IntegrityError`s. Those two lemmas describe what the service layer itself allows over the abstract store.
- Concurrency and async: each call is one atomic step. The race between the existence check and the insert is not modelled.
- The distribution of `random.choice`: only membership of the result is stated.
- HTTP routing and dependency wiring: not modelled. This includes `CommentService(db)` omitting `article_service`, and the subclasses not passing `model_name`. The label is a plain `Service(modelName)` parameter.
- Configuration and migrations: not modelled.
- `CommentService.Create`: it takes only comment models (`requires m.Comment?`), because its parameter is declared `CommentModel`.
- `ArticleService.Create`, `CommentService.Create`: the "already exists iff stored" and "not found iff missing" statements assume well-formed tables, where each row sits under its own id. This is what the primary key guarantees.
