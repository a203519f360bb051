/** Search filters: the `dict[str, Any]` handed to `filter_by(**filter)`.
    A Python dict keeps insertion order, so a filter is a sequence of
    (attribute name, value) pairs; that order is what `str(filter)` prints. */
module Filters {
  import opened Wrappers

  /** The column values a filter can compare against. */
  datatype Value = IntV(i: int) | StrV(s: string) | NoneV

  type Filter = seq<(string, Value)>

  /** The filter value for an entity id: `{"id": model.id}` where an
      unsaved model's id is `None`. */
  function IdValue(id: Option<int>): Value {
    match id
    case Some(i) => IntV(i)
    case None => NoneV
  }

  /** The `{"id": ...}` filter the services build for uniqueness and
      reference checks. */
  function IdFilter(id: Option<int>): (f: Filter)
    ensures |f| == 1 && f[0].0 == "id"
  {
    [("id", IdValue(id))]
  }

  /** Python truthiness of `dict | None`: `None` and `{}` are false. */
  predicate Truthy(filter: Option<Filter>) {
    filter.Some? && |filter.value| > 0
  }

  function DigitChar(d: int): char
    requires 0 <= d < 10
  {
    "0123456789"[d]
  }

  function NatToString(n: nat): (s: string)
    ensures |s| > 0
    decreases n
  {
    if n < 10 then [DigitChar(n)] else NatToString(n / 10) + [DigitChar(n % 10)]
  }

  /** `repr` of a Python int. */
  function IntToString(i: int): (s: string)
    ensures |s| > 0
  {
    if i < 0 then "-" + NatToString(-i) else NatToString(i)
  }

  /** `repr` of a filter value; string escaping is not modelled. */
  function ReprValue(v: Value): string {
    match v
    case IntV(i) => IntToString(i)
    case StrV(s) => "'" + s + "'"
    case NoneV => "None"
  }

  /** One `key: value` entry of a dict's `repr`, the key quoted. */
  function ReprPair(p: (string, Value)): (s: string)
    ensures |s| > 0 && s[0] == '\''
  {
    "'" + p.0 + "': " + ReprValue(p.1)
  }

  function ReprPairs(f: Filter): (s: string)
    ensures |f| == 0 <==> s == ""
    ensures |f| > 0 ==> s[0] == '\''
  {
    if |f| == 0 then ""
    else
      var head := ReprPair(f[0]);
      if |f| == 1 then head else head + ", " + ReprPairs(f[1..])
  }

  /** `str(filter)` as an f-string prints it: `{'id': 5}`. */
  function ReprFilter(f: Filter): (s: string)
    ensures |s| >= 2 && s[0] == '{' && s[|s| - 1] == '}'
    ensures s == "{}" <==> |f| == 0
    ensures |f| > 0 ==> s[1] == '\''
  {
    "{" + ReprPairs(f) + "}"
  }

  /** A non-empty filter prints its first pair right after the brace:
      `{'<key>': <value>` with the key quoted and the value in `repr`
      form. */
  lemma ReprFilterStartsWithFirstPair(f: Filter)
    requires |f| > 0
    ensures "{" + ReprPair(f[0]) <= ReprFilter(f)
  {
    var head := ReprPair(f[0]);
    if |f| > 1 {
      assert ReprPairs(f) == head + ", " + ReprPairs(f[1..]);
    }
    assert head <= ReprPairs(f);
    assert ReprFilter(f) == "{" + ReprPairs(f) + "}";
  }

  /** `{'id': 5}`: a one-pair filter prints just that pair. */
  lemma ReprStoredIdFilter(i: int)
    ensures ReprFilter(IdFilter(Some(i))) == "{'id': " + IntToString(i) + "}"
  {
    assert ReprPairs([("id", IntV(i))]) == ReprPair(("id", IntV(i)));
  }

  /** `{'id': None}` for a model not yet saved. */
  lemma ReprUnsavedIdFilter()
    ensures ReprFilter(IdFilter(None)) == "{'id': None}"
  {
    assert ReprPairs([("id", NoneV)]) == ReprPair(("id", NoneV));
  }

  /** The only filters the services print are by id: `{'id': 5}` for a
      stored id, `{'id': None}` for an unsaved one. */
  lemma ReprIdFilter(i: int)
    ensures ReprFilter(IdFilter(Some(i))) == "{'id': " + IntToString(i) + "}"
    ensures ReprFilter(IdFilter(None)) == "{'id': None}"
  {
    ReprStoredIdFilter(i);
    ReprUnsavedIdFilter();
  }
}
