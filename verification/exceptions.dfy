/** The errors the service layer raises, and the HTTP exceptions
    `NotFoundError` / `AlreadyExistsError` with their status codes and
    detail strings (src/exceptions/exception.py). */
module Exceptions {
  import opened Wrappers
  import opened Filters

  /** Every way a modelled call can fail. The first two are the project's
      own HTTP exceptions; the rest are raised by Python, by SQLAlchemy or
      by pydantic and are kept apart so that contracts can tell them from
      a 404. */
  datatype Error =
    | NotFoundError(entityName: string, filter: Option<Filter>)
    | AlreadyExistsError(entityName: string, filter: Option<Filter>)
      /** `_is_correct_filter` on a `None` filter */
    | ValueError(message: string)
      /** `filter_by(**None)` */
    | TypeError
      /** `random.choice([])` */
    | IndexError
      /** `one_or_none()` on a query with two or more rows */
    | MultipleResultsFound
      /** the primary-key constraint on insert */
    | IntegrityError
      /** a pydantic field constraint, naming the offending fields */
    | ValidationError(fields: set<string>)

  datatype HttpException = HttpException(statusCode: int, detail: string)

  const NotFoundLead := "Не найдена сущность \""
  const AlreadyExistsLead := "Сущность \""
  const AlreadyExistsTail := " уже существует"

  function NotFoundPrefix(entityName: string): string {
    NotFoundLead + entityName + "\""
  }

  function AlreadyExistsPrefix(entityName: string): string {
    AlreadyExistsLead + entityName + "\""
  }

  predicate EndsWith(s: string, suffix: string) {
    |suffix| <= |s| && s[|s| - |suffix|..] == suffix
  }

  /** `NotFoundError(entity_name, filter)`: always 404; the filter is
      appended to the detail only when it is a non-empty dict. */
  function NotFound(entityName: string, filter: Option<Filter>): (e: HttpException)
    ensures e.statusCode == 404
    ensures NotFoundPrefix(entityName) <= e.detail
    ensures e.detail == NotFoundPrefix(entityName) <==> !Truthy(filter)
    ensures Truthy(filter) ==> EndsWith(e.detail, " по фильтру " + ReprFilter(filter.value))
    ensures Truthy(filter) ==>
      |e.detail| == |NotFoundPrefix(entityName)| + |" по фильтру " + ReprFilter(filter.value)|
  {
    var detail := NotFoundPrefix(entityName);
    var detail := if Truthy(filter) then detail + " по фильтру " + ReprFilter(filter.value) else detail;
    HttpException(404, detail)
  }

  /** `AlreadyExistsError(entity_name, filter)`: always 403; the detail
      always ends in " уже существует" and mentions the filter only when
      it is a non-empty dict. */
  function AlreadyExists(entityName: string, filter: Option<Filter>): (e: HttpException)
    ensures e.statusCode == 403
    ensures AlreadyExistsPrefix(entityName) <= e.detail
    ensures EndsWith(e.detail, AlreadyExistsTail)
    ensures e.detail == AlreadyExistsPrefix(entityName) + AlreadyExistsTail <==> !Truthy(filter)
    ensures Truthy(filter) ==>
      && |AlreadyExistsPrefix(entityName)| + |AlreadyExistsTail| <= |e.detail|
      && e.detail[|AlreadyExistsPrefix(entityName)|..|e.detail| - |AlreadyExistsTail|]
           == " с " + ReprFilter(filter.value)
  {
    var detail := AlreadyExistsPrefix(entityName);
    var detail := if Truthy(filter) then detail + " с " + ReprFilter(filter.value) else detail;
    HttpException(403, detail + AlreadyExistsTail)
  }

  /** The HTTP exception an error is, when it is one of the project's own. */
  function AsHttpException(e: Error): (r: Option<HttpException>)
    ensures r.Some? <==> e.NotFoundError? || e.AlreadyExistsError?
    ensures e.NotFoundError? ==> r.value.statusCode == 404
    ensures e.AlreadyExistsError? ==> r.value.statusCode == 403
    ensures e.NotFoundError? ==> r == Some(NotFound(e.entityName, e.filter))
    ensures e.AlreadyExistsError? ==> r == Some(AlreadyExists(e.entityName, e.filter))
  {
    match e
    case NotFoundError(name, filter) => Some(NotFound(name, filter))
    case AlreadyExistsError(name, filter) => Some(AlreadyExists(name, filter))
    case _ => None
  }

  /** The text up to the first double quote, if there is one. */
  function NameUntilQuote(s: string): (r: Option<string>)
    ensures r.Some? ==> '"' !in r.value && r.value + "\"" <= s
  {
    if |s| == 0 then None
    else if s[0] == '"' then Some("")
    else
      match NameUntilQuote(s[1..])
      case None => None
      case Some(n) => Some([s[0]] + n)
  }

  /** Reads the entity name back out of either exception's detail string. */
  function EntityNameOf(detail: string): Option<string> {
    if NotFoundLead <= detail then NameUntilQuote(detail[|NotFoundLead|..])
    else if AlreadyExistsLead <= detail then NameUntilQuote(detail[|AlreadyExistsLead|..])
    else None
  }

  lemma {:induction false} NameUntilQuoteStopsAtFirstQuote(name: string, rest: string)
    requires '"' !in name
    ensures NameUntilQuote(name + "\"" + rest) == Some(name)
  {
    if |name| == 0 {
      assert (name + "\"" + rest)[0] == '"';
    } else {
      assert (name + "\"" + rest)[1..] == name[1..] + "\"" + rest;
      NameUntilQuoteStopsAtFirstQuote(name[1..], rest);
      assert [name[0]] + name[1..] == name;
    }
  }

  /** Whatever follows a quote-free name and its closing quote, the name
      is what `EntityNameOf` reads back after the lead. */
  lemma NameAfterLead(lead: string, entityName: string, detail: string)
    requires '"' !in entityName
    requires lead + entityName + "\"" <= detail
    ensures NameUntilQuote(detail[|lead|..]) == Some(entityName)
  {
    var rest := detail[|lead + entityName + "\""|..];
    assert detail[|lead|..] == entityName + "\"" + rest;
    NameUntilQuoteStopsAtFirstQuote(entityName, rest);
  }

  /** The detail string of a "not found" error names its entity
      recoverably, whatever the filter, as long as the name holds no
      double quote. */
  lemma NotFoundNameRoundTrip(entityName: string, filter: Option<Filter>)
    requires '"' !in entityName
    ensures EntityNameOf(NotFound(entityName, filter).detail) == Some(entityName)
  {
    var d := NotFound(entityName, filter).detail;
    assert NotFoundLead <= d;
    NameAfterLead(NotFoundLead, entityName, d);
  }

  /** The same for an "already exists" error. */
  lemma AlreadyExistsNameRoundTrip(entityName: string, filter: Option<Filter>)
    requires '"' !in entityName
    ensures EntityNameOf(AlreadyExists(entityName, filter).detail) == Some(entityName)
  {
    var d := AlreadyExists(entityName, filter).detail;
    assert d[0] == 'С' && NotFoundLead[0] == 'Н';
    assert !(NotFoundLead <= d);
    assert AlreadyExistsLead <= d;
    NameAfterLead(AlreadyExistsLead, entityName, d);
  }

  /** A "not found" detail can never be mistaken for an "already exists" one. */
  lemma DetailsNeverCoincide(n1: string, f1: Option<Filter>, n2: string, f2: Option<Filter>)
    ensures NotFound(n1, f1).detail != AlreadyExists(n2, f2).detail
  {
    assert NotFound(n1, f1).detail[0] == 'Н';
    assert AlreadyExists(n2, f2).detail[0] == 'С';
  }
}
