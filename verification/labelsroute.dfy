/**
 * The `/api/labels` handlers: list, add and delete labels over the label
 * store, with the status codes and error messages the route returns.
 */
module LabelsApi {
  import opened Optional
  import opened Text
  import opened LabelStore
  import opened Subsequence

  // ---------------------------------------------------------------------
  // parseInt(s, 10)

  predicate IsDigit(c: char) {
    '0' <= c <= '9'
  }

  predicate AllDigits(s: string) {
    forall i :: 0 <= i < |s| ==> IsDigit(s[i])
  }

  /** Length of the longest prefix of decimal digits. */
  function DigitRun(s: string): (n: nat)
    ensures n <= |s|
    ensures AllDigits(s[..n])
    ensures n < |s| ==> !IsDigit(s[n])
    decreases |s|
  {
    if s == [] || !IsDigit(s[0]) then 0 else 1 + DigitRun(s[1..])
  }

  /** The number a run of decimal digits denotes, most significant first. */
  function DigitsValue(s: string): nat
    requires AllDigits(s)
    decreases |s|
  {
    if s == [] then 0
    else DigitsValue(s[..|s| - 1]) * 10 + (s[|s| - 1] as int - '0' as int)
  }

  /**
   * JavaScript's `parseInt(s, 10)`: leading whitespace skipped, an optional
   * sign, then the longest run of digits; no digits gives NaN, here `None`.
   * A negative zero is the integer 0.
   */
  function ParseInt(s: string): (r: Option<int>)
    ensures r.Some? ==> TrimStart(s) != []
    ensures r.Some? && r.value < 0 ==> TrimStart(s)[0] == '-'
  {
    var t := TrimStart(s);
    var negative := t != [] && t[0] == '-';
    var u := if t != [] && (t[0] == '-' || t[0] == '+') then t[1..] else t;
    var n := DigitRun(u);
    if n == 0 then None
    else
      var v: int := DigitsValue(u[..n]);
      Some(if negative then -v else v)
  }

  function DigitChar(d: nat): (c: char)
    requires d < 10
    ensures IsDigit(c) && c as int - '0' as int == d
  {
    ('0' as int + d) as char
  }

  /** `String(n)` for a non-negative integer: decimal, no leading zeros. */
  function DecimalString(n: nat): (r: string)
    ensures r != [] && AllDigits(r)
    ensures r[0] == '0' ==> n == 0
    decreases n
  {
    if n < 10 then [DigitChar(n)]
    else
      var r := DecimalString(n / 10) + [DigitChar(n % 10)];
      assert r[..|r| - 1] == DecimalString(n / 10);
      r
  }

  lemma {:induction false} DecimalStringValue(n: nat)
    ensures DigitsValue(DecimalString(n)) == n
    decreases n
  {
    var r := DecimalString(n);
    if n >= 10 {
      DecimalStringValue(n / 10);
      assert r[..|r| - 1] == DecimalString(n / 10);
    }
  }

  /** Digits followed by anything that is not a digit: the run stops where the digits do. */
  lemma {:induction false} DigitRunOfDigits(s: string, rest: string)
    requires AllDigits(s)
    requires rest == [] || !IsDigit(rest[0])
    ensures DigitRun(s + rest) == |s|
    decreases |s|
  {
    if s != [] {
      assert (s + rest)[1..] == s[1..] + rest;
      DigitRunOfDigits(s[1..], rest);
    }
  }

  /**
   * Reading back a printed id: `parseInt(String(n), 10) == n`, also when
   * text that does not start with a digit follows, as in "12abc" or "1.5".
   */
  lemma ParseIntDecimal(n: nat, rest: string)
    requires rest == [] || !IsDigit(rest[0])
    ensures ParseInt(DecimalString(n) + rest) == Some(n)
  {
    var d := DecimalString(n);
    var s := d + rest;
    assert s[0] == d[0] && IsDigit(s[0]) && !IsSpace(s[0]);
    assert TrimStart(s) == s;
    DigitRunOfDigits(d, rest);
    assert s[..|d|] == d;
    DecimalStringValue(n);
  }

  /** A minus sign negates the printed number. */
  lemma ParseIntNegative(n: nat)
    ensures ParseInt("-" + DecimalString(n)) == Some(-(n as int))
  {
    var d := DecimalString(n);
    var s := "-" + d;
    assert !IsSpace('-');
    assert TrimStart(s) == s;
    assert s[1..] == d + [];
    DigitRunOfDigits(d, []);
    assert d[..|d|] == d;
    DecimalStringValue(n);
  }

  /** Text that starts, after whitespace, with neither a sign nor a digit is NaN. */
  lemma ParseIntNotANumber(s: string)
    requires var t := TrimStart(s); t == [] || (!IsDigit(t[0]) && t[0] != '-' && t[0] != '+')
    ensures ParseInt(s) == None
  {
  }

  // ---------------------------------------------------------------------
  // Requests and responses

  /** The `label` member of a POST body: a string, or anything else (absent, null, a number, …). */
  datatype LabelField = NonString | Str(s: string)

  /** A POST body that failed to parse or to destructure, or a parsed one. */
  datatype PostBody = Unparsable | Json(field: LabelField)

  /** The `id` and `label` search parameters of a DELETE; `None` when absent. */
  datatype Query = Query(id: Option<string>, name: Option<string>)

  datatype Response =
    | Labels(labels: seq<Row>)
    | Created(row: Row)
    | Deleted(message: string)
    | Error(status: int, error: string)

  function Status(r: Response): int {
    match r
    case Labels(_) => 200
    case Created(_) => 201
    case Deleted(_) => 200
    case Error(status, _) => status
  }

  const LabelRequired: string := "Label is required and must be a non-empty string"
  const LabelExists: string := "Label already exists"
  const AddFailed: string := "Failed to add label"
  const ParameterRequired: string := "Either id or label parameter is required"
  const LabelNotFound: string := "Label not found"
  const DeleteSucceeded: string := "Label deleted successfully"

  /** What a handler leaves behind: the table and the response sent. */
  datatype Outcome = Outcome(table: Table, response: Response)

  /** GET: every label, ordered by label. */
  function Get(t: Table): (r: Response)
    ensures r.Labels? && SortedByLabel(r.labels) && multiset(r.labels) == multiset(t.rows)
  {
    Labels(GetAllLabels(t))
  }

  /** The label text a POST would insert, when the body passes validation. */
  predicate Acceptable(body: PostBody) {
    body.Json? && body.field.Str? && Trim(body.field.s) != []
  }

  /**
   * POST: a body that cannot be read is a 500; a missing, non-string or
   * blank label a 400; otherwise the trimmed label is inserted (201) unless
   * it is already present (409).
   */
  function Post(t: Table, body: PostBody): (o: Outcome)
    ensures o.response.Created? <==>
      Acceptable(body) && forall i :: 0 <= i < |t.rows| ==> t.rows[i].name != Trim(body.field.s)
    ensures o.response.Created? ==>
      o.response.row == Row(t.nextId, Trim(body.field.s)) && o.table == Table(t.rows + [o.response.row], t.nextId + 1)
    ensures !o.response.Created? ==> o.table == t
    ensures Status(o.response) == 400 <==> body.Json? && !Acceptable(body)
    ensures Status(o.response) == 409 <==>
      Acceptable(body) && exists i :: 0 <= i < |t.rows| && t.rows[i].name == Trim(body.field.s)
    ensures Status(o.response) == 500 <==> body.Unparsable?
  {
    match body
    case Unparsable => Outcome(t, Error(500, AddFailed))
    case Json(field) =>
      if !field.Str? || Trim(field.s) == [] then Outcome(t, Error(400, LabelRequired))
      else
        match AddLabel(t, Trim(field.s))
        case Inserted(row, t') => Outcome(t', Created(row))
        case UniqueViolation => Outcome(t, Error(409, LabelExists))
  }

  /** A search parameter JavaScript treats as true: present and non-empty. */
  predicate Truthy(p: Option<string>) {
    p.Some? && p.value != []
  }

  /** Some row carries the id a DELETE names. */
  predicate NamesRowById(t: Table, q: Query) {
    Truthy(q.id) && ParseInt(q.id.value).Some?
    && exists i :: 0 <= i < |t.rows| && t.rows[i].id == ParseInt(q.id.value).value
  }

  /** Some row carries the label a DELETE names, no id being given. */
  predicate NamesRowByLabel(t: Table, q: Query) {
    !Truthy(q.id) && Truthy(q.name)
    && exists i :: 0 <= i < |t.rows| && t.rows[i].name == q.name.value
  }

  /**
   * DELETE: neither parameter given is a 400; otherwise the id wins over the
   * label, and the response is 200 when a row went and 404 when none did.
   * An id that parses to NaN matches no row.
   */
  function Delete(t: Table, q: Query): (o: Outcome)
    ensures Status(o.response) == 400 <==> !Truthy(q.id) && !Truthy(q.name)
    ensures o.response.Deleted? <==> NamesRowById(t, q) || NamesRowByLabel(t, q)
    ensures Status(o.response) in {200, 400, 404}
    ensures Status(o.response) == 200 <==> o.response.Deleted?
    ensures (Truthy(q.id) || Truthy(q.name)) && !o.response.Deleted? ==> o.response == Error(404, LabelNotFound)
    ensures !o.response.Deleted? ==> o.table == t
    ensures o.table.nextId == t.nextId && IsSubseq(o.table.rows, t.rows)
    ensures o.response.Deleted? && Truthy(q.id) ==>
      forall x :: x in o.table.rows <==> x in t.rows && x.id != ParseInt(q.id.value).value
    ensures o.response.Deleted? && !Truthy(q.id) ==>
      forall x :: x in o.table.rows <==> x in t.rows && x.name != q.name.value
  {
    IsSubseqRefl(t.rows);
    if !Truthy(q.id) && !Truthy(q.name) then Outcome(t, Error(400, ParameterRequired))
    else
      var removal :=
        if Truthy(q.id) then
          match ParseInt(q.id.value)
          case None => Removal(t, false)
          case Some(id) => RemoveLabel(t, id)
        else RemoveLabelByName(t, q.name.value);
      if removal.removed then Outcome(removal.table, Deleted(DeleteSucceeded))
      else Outcome(t, Error(404, LabelNotFound))
  }

  /** Given an id, the label parameter is ignored. */
  lemma IdTakesPrecedence(t: Table, q: Query)
    requires Truthy(q.id)
    ensures Delete(t, q) == Delete(t, Query(q.id, None))
  {
  }

  // ---------------------------------------------------------------------
  // The route over many requests

  datatype Request = GetRequest | PostRequest(body: PostBody) | DeleteRequest(query: Query)

  /** Dispatches a request to its handler; a GET never changes the table, and a request adds at most one row. */
  function Handle(t: Table, req: Request): (o: Outcome)
    ensures req.GetRequest? ==> o.table == t
    ensures o.table.nextId >= t.nextId
    ensures |o.table.rows| <= |t.rows| + 1
  {
    match req
    case GetRequest => Outcome(t, Get(t))
    case PostRequest(body) => Post(t, body)
    case DeleteRequest(q) =>
      IsSubseqMembers(Delete(t, q).table.rows, t.rows);
      Delete(t, q)
  }

  /** The table after serving requests in order. */
  function Serve(t: Table, reqs: seq<Request>): (r: Table)
    ensures r.nextId >= t.nextId
    ensures |r.rows| <= |t.rows| + |reqs|
    decreases |reqs|
  {
    if reqs == [] then t else Serve(Handle(t, reqs[0]).table, reqs[1..])
  }

  /** Every response carries one of the route's status codes. */
  lemma StatusCodes(t: Table, req: Request)
    ensures Status(Handle(t, req).response) in {200, 201, 400, 404, 409, 500}
  {
  }

  /** A request that fails changes nothing. */
  lemma FailureChangesNothing(t: Table, req: Request)
    requires Status(Handle(t, req).response) >= 400
    ensures Handle(t, req).table == t
  {
  }

  /** Valid tables whose labels are all non-empty and trimmed, as the route only inserts such labels. */
  predicate RouteInvariant(t: Table) {
    Valid(t) && forall i :: 0 <= i < |t.rows| ==> t.rows[i].name != [] && Trim(t.rows[i].name) == t.rows[i].name
  }

  /** A created row carries a trimmed, non-empty label. */
  lemma PostKeepsInvariant(t: Table, body: PostBody)
    requires RouteInvariant(t)
    ensures RouteInvariant(Post(t, body).table)
    ensures Post(t, body).table.nextId >= t.nextId
  {
    var o := Post(t, body);
    if o.response.Created? {
      TrimIdempotent(body.field.s);
      forall i | 0 <= i < |o.table.rows|
        ensures o.table.rows[i].name != [] && Trim(o.table.rows[i].name) == o.table.rows[i].name
      {
        if i < |t.rows| {
          assert o.table.rows[i] == t.rows[i];
        }
      }
    }
  }

  /** Keeping a subsequence of an invariant table's rows keeps the invariant. */
  lemma SubseqKeepsInvariant(t: Table, rows: seq<Row>)
    requires RouteInvariant(t) && IsSubseq(rows, t.rows)
    ensures RouteInvariant(Table(rows, t.nextId))
  {
    RemovalKeepsValid(t, rows);
    IsSubseqMembers(rows, t.rows);
    forall i | 0 <= i < |rows|
      ensures rows[i].name != [] && Trim(rows[i].name) == rows[i].name
    {
      assert rows[i] in t.rows;
    }
  }

  /** A deletion keeps a subsequence of rows, all of which met the invariant. */
  lemma DeleteKeepsInvariant(t: Table, q: Query)
    requires RouteInvariant(t)
    ensures RouteInvariant(Delete(t, q).table)
  {
    var o := Delete(t, q);
    SubseqKeepsInvariant(t, o.table.rows);
    assert o.table == Table(o.table.rows, t.nextId);
  }

  lemma HandleKeepsInvariant(t: Table, req: Request)
    requires RouteInvariant(t)
    ensures RouteInvariant(Handle(t, req).table)
    ensures Handle(t, req).table.nextId >= t.nextId
  {
    match req
    case GetRequest =>
    case PostRequest(body) => PostKeepsInvariant(t, body);
    case DeleteRequest(q) => DeleteKeepsInvariant(t, q);
  }

  /** Serving any requests from an invariant table keeps it, and ids only ever grow. */
  lemma {:induction false} ServeKeepsInvariant(t: Table, reqs: seq<Request>)
    requires RouteInvariant(t)
    ensures RouteInvariant(Serve(t, reqs))
    ensures Serve(t, reqs).nextId >= t.nextId
    decreases |reqs|
  {
    if reqs != [] {
      HandleKeepsInvariant(t, reqs[0]);
      ServeKeepsInvariant(Handle(t, reqs[0]).table, reqs[1..]);
    }
  }

  lemma InitialTableInvariant()
    ensures RouteInvariant(EmptyTable())
  {
  }

  // ---------------------------------------------------------------------
  // Round trips through the route

  /** Deleting by the printed id of a label just posted removes it again. */
  lemma PostThenDeleteById(t: Table, body: PostBody, rest: string)
    requires Valid(t)
    requires Post(t, body).response.Created?
    requires rest == [] || !IsDigit(rest[0])
    ensures var o := Post(t, body);
            var id := o.response.row.id;
            id >= 1 &&
            Delete(o.table, Query(Some(DecimalString(id) + rest), None))
            == Outcome(Table(t.rows, t.nextId + 1), Deleted(DeleteSucceeded))
  {
    var o := Post(t, body);
    var id := o.response.row.id;
    ParseIntDecimal(id, rest);
    AddThenRemove(t, Trim(body.field.s));
    assert o.table.rows[|t.rows|].id == id;
  }

  /** Deleting by the label just posted removes it again. */
  lemma PostThenDeleteByLabel(t: Table, body: PostBody)
    requires Post(t, body).response.Created?
    ensures var o := Post(t, body);
            Delete(o.table, Query(None, Some(Trim(body.field.s))))
            == Outcome(Table(t.rows, t.nextId + 1), Deleted(DeleteSucceeded))
  {
    var o := Post(t, body);
    AddThenRemoveByName(t, Trim(body.field.s));
    assert o.table.rows[|t.rows|].name == Trim(body.field.s);
  }

  /** Posting the same label twice: the second is a conflict. */
  lemma PostTwice(t: Table, body: PostBody)
    requires Post(t, body).response.Created?
    ensures Post(Post(t, body).table, body).response == Error(409, LabelExists)
  {
    var o := Post(t, body);
    assert o.table.rows[|t.rows|].name == Trim(body.field.s);
  }

  /** A posted label shows up in the next listing. */
  lemma PostThenGet(t: Table, body: PostBody)
    requires Post(t, body).response.Created?
    ensures Post(t, body).response.row in Get(Post(t, body).table).labels
  {
    AddedRowListed(t, Trim(body.field.s));
  }
}
