/** The list-query middleware shared by every list endpoint. It turns the
    request query into a plan: a filter (the query minus the reserved
    parameters, serialised, with `$` put in front of the comparison
    operators), an optional projection, a sort key and a page. The plan is
    then run against the store. The store's matching, sorting and counting
    are inputs here: `docs` is the filtered and sorted sequence of matching
    documents, and `total` is the count of the whole, unfiltered
    collection. */
module AdvancedResults {
  import opened Wrappers
  import Js
  import Text
  import opened QueryValues
  import OperatorRewrite
  import RewriteJson
  import IntParsing
  import ErrorHandler

  /** The query parameters that steer the middleware and never filter. */
  const Reserved: set<string> := {"select", "sort", "limit", "page"}

  const DefaultPage: int := 1
  const DefaultLimit: int := 15
  const DefaultSort: string := "-createdAt"

  // ---------------------------------------------------------------------
  // The filter

  /** `{ ...req.query }` with the reserved parameters deleted; the other
      entries keep their order. */
  function FilterQuery(q: seq<Entry>): (r: seq<Entry>)
    ensures forall e :: e in r <==> e in q && e.key !in Reserved
    ensures |r| <= |q|
  {
    if q == [] then []
    else if q[0].key in Reserved then FilterQuery(q[1..])
    else [q[0]] + FilterQuery(q[1..])
  }

  /** The text handed to `JSON.parse`: the filter serialised, then
      rewritten. */
  function FilterText(q: seq<Entry>): string {
    OperatorRewrite.Rewrite(Serialize(Obj(FilterQuery(q))))
  }

  /** Reading a parameter of the filter gives what the request holds,
      except for the reserved ones, which are gone. */
  lemma {:induction false} FilterLookup(q: seq<Entry>, k: string)
    ensures Lookup(FilterQuery(q), k) == if k in Reserved then None else Lookup(q, k)
    decreases |q|
  {
    if q != [] {
      FilterLookup(q[1..], k);
      if q[0].key !in Reserved {
        assert ([q[0]] + FilterQuery(q[1..]))[1..] == FilterQuery(q[1..]);
      }
    }
  }

  lemma {:induction false} FilterNoControl(q: seq<Entry>)
    requires RewriteJson.NoControlEntries(q)
    ensures RewriteJson.NoControlEntries(FilterQuery(q))
    decreases |q|
  {
    if q != [] {
      FilterNoControl(q[1..]);
      if q[0].key !in Reserved {
        assert ([q[0]] + FilterQuery(q[1..]))[1..] == FilterQuery(q[1..]);
      }
    }
  }

  /** For a query without control characters, the filter text is the
      serialisation of the filter with every key and every string value
      rewritten on its own: `$` lands in front of operator words in keys
      and values alike, and the text stays well-formed JSON. */
  lemma FilterTextIsRewrittenFilter(q: seq<Entry>)
    requires RewriteJson.NoControlEntries(q)
    ensures FilterText(q) == Serialize(RewriteJson.RewriteStrings(Obj(FilterQuery(q))))
  {
    FilterNoControl(q);
    RewriteJson.SerializeCommutes(Obj(FilterQuery(q)));
  }

  lemma SerializePlainString(s: string)
    requires Plain(s)
    ensures Serialize(Str(s)) == "\"" + s + "\""
  {
    EscapePlain(s);
  }

  lemma SerializeOneMember(k: string, v: QValue)
    requires Plain(k)
    ensures Serialize(Obj([Entry(k, v)])) == "{\"" + k + "\":" + Serialize(v) + "}"
  {
    EscapePlain(k);
    assert SerializeMembers([Entry(k, v)]) == Quote(k) + ":" + Serialize(v);
    assert Quote(k) == "\"" + k + "\"";
  }

  /** A word, and its rewrite, are written into JSON as they are. */
  lemma WordIsPlain(w: string)
    requires |w| > 0 && OperatorRewrite.AllWord(w)
    ensures Plain(w) && RewriteJson.NoControlText(w)
    ensures Plain(OperatorRewrite.Rewrite(w))
  {
    OperatorRewrite.RewriteWord(w);
    var r := OperatorRewrite.Rewrite(w);
    assert r == w || (r[0] == '$' && r[1..] == w);
  }

  /** One entry without control characters. */
  lemma NoControlOne(k: string, v: QValue)
    requires RewriteJson.NoControlText(k) && RewriteJson.NoControl(v)
    ensures RewriteJson.NoControl(Obj([Entry(k, v)]))
  {
    assert [Entry(k, v)][1..] == [];
  }

  /** One entry, rewritten. */
  lemma RewriteOne(k: string, v: QValue)
    ensures RewriteJson.RewriteStrings(Obj([Entry(k, v)]))
         == Obj([Entry(OperatorRewrite.Rewrite(k), RewriteJson.RewriteStrings(v))])
  {
    assert [Entry(k, v)][1..] == [];
  }

  /** The JSON text of a one-comparison filter. */
  lemma SerializeComparison(field: string, op: string, v: string)
    requires Plain(field) && Plain(op) && Plain(v)
    ensures Serialize(Obj([Entry(field, Obj([Entry(op, Str(v))]))]))
         == "{\"" + field + "\":" + ("{\"" + op + "\":" + ("\"" + v + "\"") + "}") + "}"
  {
    SerializePlainString(v);
    SerializeOneMember(op, Str(v));
    SerializeOneMember(field, Obj([Entry(op, Str(v))]));
  }

  /** A comparison on a field, next to a `page` parameter: the page is
      dropped and each word of the comparison is rewritten on its own. */
  lemma FieldComparison(field: string, op: string, v: string, page: QValue)
    requires field !in Reserved
    requires |field| > 0 && OperatorRewrite.AllWord(field)
    requires |op| > 0 && OperatorRewrite.AllWord(op)
    requires |v| > 0 && OperatorRewrite.AllWord(v)
    ensures var rf, rop, rv := OperatorRewrite.Rewrite(field), OperatorRewrite.Rewrite(op), OperatorRewrite.Rewrite(v);
      FilterText([Entry(field, Obj([Entry(op, Str(v))])), Entry("page", page)])
      == "{\"" + rf + "\":" + ("{\"" + rop + "\":" + ("\"" + rv + "\"") + "}") + "}"
  {
    var q := [Entry(field, Obj([Entry(op, Str(v))])), Entry("page", page)];
    var inner := Obj([Entry(op, Str(v))]);
    var f := [Entry(field, inner)];
    var rf, rop, rv := OperatorRewrite.Rewrite(field), OperatorRewrite.Rewrite(op), OperatorRewrite.Rewrite(v);
    assert FilterQuery(q) == f by {
      assert FilterQuery(q[1..]) == [];
    }
    WordIsPlain(field);
    WordIsPlain(op);
    WordIsPlain(v);
    NoControlOne(op, Str(v));
    NoControlOne(field, inner);
    RewriteJson.SerializeCommutes(Obj(f));
    RewriteOne(op, Str(v));
    RewriteOne(field, inner);
    SerializeComparison(rf, rop, rv);
  }

  /** The one-comparison filter text, as one string. */
  lemma SpellJson(field: string, op: string, v: string)
    ensures "{\"" + field + "\":" + ("{\"" + op + "\":" + ("\"" + v + "\"") + "}") + "}"
         == "{\"" + field + "\":{\"" + op + "\":\"" + v + "\"}}"
  {
  }

  /** `price[gte]=10&page=2` filters on `{"price":{"$gte":"10"}}`. */
  lemma RangeQueryExample(field: string, op: string, v: string)
    requires field == "price" && op == "gte" && v == "10"
    ensures FilterText([Entry(field, Obj([Entry(op, Str(v))])), Entry("page", Str("2"))])
         == "{\"" + field + "\":{\"" + ("$" + op) + "\":\"" + v + "\"}}"
  {
    OperatorRewrite.RewriteWord(field);
    OperatorRewrite.RewriteWord(op);
    OperatorRewrite.RewriteWord(v);
    assert field !in Reserved by {
      assert field[1] == 'r';
    }
    FieldComparison(field, op, v, Str("2"));
    SpellJson(field, "$" + op, v);
  }

  /** Operator names inside longer words are left alone:
      `inStock[gtx]=lte` filters on `{"inStock":{"gtx":"$lte"}}`. */
  lemma EmbeddedOperatorExample(field: string, op: string, v: string)
    requires field == "inStock" && op == "gtx" && v == "lte"
    ensures FilterText([Entry(field, Obj([Entry(op, Str(v))])), Entry("page", Str("1"))])
         == "{\"" + field + "\":{\"" + op + "\":\"" + ("$" + v) + "\"}}"
  {
    OperatorRewrite.RewriteWord(field);
    OperatorRewrite.RewriteWord(op);
    OperatorRewrite.RewriteWord(v);
    assert field !in Reserved by {
      assert field[1] == 'n';
    }
    FieldComparison(field, op, v, Str("1"));
    SpellJson(field, op, "$" + v);
  }

  // ---------------------------------------------------------------------
  // Projection and sort

  /** What `x.split` throws when `x` is an array or an object. */
  function SplitError(name: string): Js.JsError {
    Js.TypeError("req.query." + name + ".split is not a function", Js.Undefined)
  }

  /** `if (req.query.x) ... req.query.x.split(",").join(" ")`: `None` when
      the parameter is missing or empty (falsy); a TypeError when it is an
      array or an object, which have no `split`. */
  function FieldList(name: string, v: Option<QValue>): (r: Result<Option<string>, Js.JsError>)
    ensures r == Ok(None) <==> v.None? || v == Some(Str(""))
    ensures r.Err? <==> v.Some? && !v.value.Str?
    ensures r.Err? ==> r.error == SplitError(name)
    ensures v.Some? && v.value.Str? && v.value.s != ""
            ==> r == Ok(Some(Text.ReplaceChar(v.value.s, ',', ' ')))
  {
    match v
    case None => Ok(None)
    case Some(Str(s)) =>
      if s == "" then Ok(None)
      else
        Text.SplitJoinReplaces(s, ',', ' ');
        Ok(Some(Text.Join(Text.Split(s, ','), " ")))
    case Some(_) => Err(SplitError(name))
  }

  /** A comma list of field names reaches the store as the same names
      separated by single spaces, and splitting that on spaces gives the
      names back. */
  lemma FieldListRoundTrip(name: string, fields: seq<string>)
    requires |fields| >= 1 && Text.Join(fields, ",") != ""
    requires forall i :: 0 <= i < |fields| ==> ',' !in fields[i] && ' ' !in fields[i]
    ensures FieldList(name, Some(Str(Text.Join(fields, ",")))) == Ok(Some(Text.Join(fields, " ")))
    ensures Text.Split(Text.Join(fields, " "), ' ') == fields
  {
    Text.JoinSplitRoundTrip(fields, ',');
    Text.SplitJoinReplaces(Text.Join(fields, ","), ',', ' ');
    Text.JoinSplitRoundTrip(fields, ' ');
  }

  // ---------------------------------------------------------------------
  // The plan

  /** What the middleware asks of the store. */
  datatype Plan = Plan(filter: string, select: Option<string>, sort: string, page: int, limit: int)
  {
    /** `(page - 1) * limit`, the `skip`. */
    function StartIndex(): int { (page - 1) * limit }

    /** `page * limit`, the first index after the page. */
    function LastIndex(): int { page * limit }
  }

  predicate NotText(v: Option<QValue>) {
    v.Some? && !v.value.Str?
  }

  predicate Falsy(v: Option<QValue>) {
    v.None? || v == Some(Str(""))
  }

  /** Everything the middleware computes before it reaches the store:
      the select error, if any, comes before the sort error; `page` and
      `limit` are `parseInt(..., 10)` with 1 and 15 in place of NaN and 0. */
  function BuildPlan(q: seq<Entry>): (r: Result<Plan, Js.JsError>)
    ensures r.Err? <==> NotText(Lookup(q, "select")) || NotText(Lookup(q, "sort"))
    ensures r.Err? ==> r.error == SplitError(if NotText(Lookup(q, "select")) then "select" else "sort")
    ensures r.Ok? ==> r.value.filter == FilterText(q)
    ensures r.Ok? ==> (r.value.select.None? <==> Falsy(Lookup(q, "select")))
    ensures r.Ok? && Falsy(Lookup(q, "sort")) ==> r.value.sort == DefaultSort
    ensures r.Ok? && !Falsy(Lookup(q, "select"))
            ==> r.value.select == Some(Text.ReplaceChar(Lookup(q, "select").value.s, ',', ' '))
    ensures r.Ok? && !Falsy(Lookup(q, "sort"))
            ==> r.value.sort == Text.ReplaceChar(Lookup(q, "sort").value.s, ',', ' ')
    ensures r.Ok? ==> r.value.page == IntParsing.ParamOr(Lookup(q, "page"), DefaultPage)
    ensures r.Ok? ==> r.value.limit == IntParsing.ParamOr(Lookup(q, "limit"), DefaultLimit)
    ensures r.Ok? ==> r.value.page != 0 && r.value.limit != 0
    ensures r.Ok? ==> r.value.page == DefaultPage
                      || IntParsing.ParseInt(ParamText(Lookup(q, "page"))) == Some(r.value.page)
    ensures r.Ok? ==> r.value.limit == DefaultLimit
                      || IntParsing.ParseInt(ParamText(Lookup(q, "limit"))) == Some(r.value.limit)
  {
    var select := FieldList("select", Lookup(q, "select"));
    if select.Err? then Err(select.error)
    else
      var sort := FieldList("sort", Lookup(q, "sort"));
      if sort.Err? then Err(sort.error)
      else
        Ok(Plan(FilterText(q), select.value,
                if sort.value.Some? then sort.value.value else DefaultSort,
                IntParsing.ParamOr(Lookup(q, "page"), DefaultPage),
                IntParsing.ParamOr(Lookup(q, "limit"), DefaultLimit)))
  }

  /** A query with none of the reserved parameters: all the defaults. */
  lemma DefaultPlan(q: seq<Entry>)
    requires forall i :: 0 <= i < |q| ==> q[i].key !in Reserved
    ensures BuildPlan(q) == Ok(Plan(FilterText(q), None, DefaultSort, DefaultPage, DefaultLimit))
  {
    IntParsing.ParamDefaults(DefaultPage);
    IntParsing.ParamDefaults(DefaultLimit);
  }

  /** A projection and a sort given as comma lists of field names reach
      the store as space lists that split back into the same names, and
      the page and limit are the parsed parameters. */
  lemma PlanReadsFieldLists(q: seq<Entry>, fields: seq<string>, keys: seq<string>)
    requires |fields| >= 1 && Text.Join(fields, ",") != ""
    requires forall i :: 0 <= i < |fields| ==> ',' !in fields[i] && ' ' !in fields[i]
    requires |keys| >= 1 && Text.Join(keys, ",") != ""
    requires forall i :: 0 <= i < |keys| ==> ',' !in keys[i] && ' ' !in keys[i]
    requires Lookup(q, "select") == Some(Str(Text.Join(fields, ",")))
    requires Lookup(q, "sort") == Some(Str(Text.Join(keys, ",")))
    ensures BuildPlan(q).Ok?
    ensures var plan := BuildPlan(q).value;
      plan.select.Some? && Text.Split(plan.select.value, ' ') == fields && Text.Split(plan.sort, ' ') == keys
  {
    FieldListRoundTrip("select", fields);
    FieldListRoundTrip("sort", keys);
  }

  /** A `select` that is not text, such as the object `?select[x]=a`,
      reaches the client as a 500 carrying the TypeError's message. The
      middleware is taken on its own here: in the server, `hpp` runs first
      and turns a repeated `?select=a&select=b` into its last value. */
  lemma ArraySelectIs500(q: seq<Entry>)
    requires NotText(Lookup(q, "select"))
    ensures BuildPlan(q).Err?
    ensures ErrorHandler.Handle(BuildPlan(q).error)
         == ErrorHandler.Response(500, false, "req.query.select.split is not a function")
  {
    var e := SplitError("select");
    assert FieldList("select", Lookup(q, "select")) == Err(e);
    assert BuildPlan(q) == Err(e);
    SelectErrorText();
    ErrorHandler.TypeErrorIs500("req.query.select.split is not a function");
  }

  // ---------------------------------------------------------------------
  // Running the plan

  function Abs(n: int): nat {
    if n < 0 then -n else n
  }

  function Min(a: int, b: int): int {
    if a <= b then a else b
  }

  /** The documents `skip(start).limit(size)` returns from the matching
      sequence: the ones from `start` on, as many as there are up to
      `size`. */
  function PageOf<D>(docs: seq<D>, start: nat, size: nat): (r: seq<D>)
    ensures |r| <= size
    ensures |r| == size || start + |r| >= |docs|
    ensures forall i :: 0 <= i < |r| ==> start + i < |docs| && r[i] == docs[start + i]
  {
    if start >= |docs| then [] else docs[start..Min(|docs|, start + size)]
  }

  datatype Cursor = Cursor(page: int, limit: int)

  datatype Pagination = Pagination(next: Option<Cursor>, prev: Option<Cursor>)

  /** `res.advancedResults`. */
  datatype Envelope<D> = Envelope(success: bool, count: nat, pagination: Pagination, data: seq<D>)

  /** The cursors, decided against the count of the whole collection. */
  function Paginate(plan: Plan, total: nat): (r: Pagination)
    ensures r.next.Some? <==> plan.LastIndex() < total
    ensures r.prev.Some? <==> plan.StartIndex() > 0
    ensures r.next.Some? ==> r.next.value == Cursor(plan.page + 1, plan.limit)
    ensures r.prev.Some? ==> r.prev.value == Cursor(plan.page - 1, plan.limit)
  {
    Pagination(if plan.LastIndex() < total then Some(Cursor(plan.page + 1, plan.limit)) else None,
               if plan.StartIndex() > 0 then Some(Cursor(plan.page - 1, plan.limit)) else None)
  }

  /** What the store answers for one request. MongoDB's matching, sorting,
      counting and refusals are given here, not computed:
      - `docs`: the documents the filter matches, in the plan's sort order;
      - `total`: `countDocuments()`, the size of the whole collection;
      - `countError`: the rejection of `countDocuments()`, if it fails;
      - `queryError`: the rejection of the query itself when it runs,
        raised while Mongoose casts the filter, projection and sort (a
        CastError for `?price=abc` on a numeric field), if it fails;
      - `skipError`: what the server answers to a negative skip. */
  datatype Store<D> = Store(docs: seq<D>, total: nat, countError: Option<Js.JsError>,
                            queryError: Option<Js.JsError>, skipError: Js.JsError)
  {
    /** The store raises nothing but the negative-skip refusal. */
    predicate Healthy() {
      countError.None? && queryError.None?
    }
  }

  /** The store's part, in the order the middleware awaits it: the count
      first, then the query, whose own casting failure comes before the
      server sees the skip; a negative `skip` is then refused (whatever the
      refusal says); a negative `limit` returns as many documents as its
      absolute value. The envelope counts the page, not the collection. */
  function Execute<D>(plan: Plan, store: Store<D>): (r: Result<Envelope<D>, Js.JsError>)
    ensures r.Err? <==> !store.Healthy() || plan.StartIndex() < 0
    ensures store.countError.Some? ==> r == Err(store.countError.value)
    ensures store.countError.None? && store.queryError.Some? ==> r == Err(store.queryError.value)
    ensures store.Healthy() && plan.StartIndex() < 0 ==> r == Err(store.skipError)
    ensures r.Ok? ==> r.value.success && r.value.count == |r.value.data|
    ensures r.Ok? ==> |r.value.data| <= Abs(plan.limit)
    ensures r.Ok? ==> forall i :: 0 <= i < |r.value.data| ==>
                        plan.StartIndex() + i < |store.docs| && r.value.data[i] == store.docs[plan.StartIndex() + i]
    ensures r.Ok? ==> |r.value.data| == Abs(plan.limit) || plan.StartIndex() + |r.value.data| >= |store.docs|
    ensures r.Ok? ==> r.value.data == PageOf(store.docs, plan.StartIndex(), Abs(plan.limit))
    ensures r.Ok? ==> r.value.pagination == Paginate(plan, store.total)
  {
    if store.countError.Some? then Err(store.countError.value)
    else if store.queryError.Some? then Err(store.queryError.value)
    else if plan.StartIndex() < 0 then Err(store.skipError)
    else
      var data := PageOf(store.docs, plan.StartIndex(), Abs(plan.limit));
      Ok(Envelope(true, |data|, Paginate(plan, store.total), data))
  }

  /** The first error the store raises for a plan whose skip is `start`. */
  function StoreFailure<D>(store: Store<D>, start: int): Option<Js.JsError> {
    if store.countError.Some? then store.countError
    else if store.queryError.Some? then store.queryError
    else if start < 0 then Some(store.skipError)
    else None
  }

  /** `advancedResults`, from the request query to `res.advancedResults`:
      an array or object `select` (then `sort`) fails with its TypeError;
      otherwise, with `page` and `limit` read by `parseInt(..., 10) || d`,
      the request fails exactly when the store rejects the count or the
      query or refuses a negative skip, with the first of those errors; any
      other request gets the page `skip((page - 1) * limit).limit(limit)`
      of the matching documents, its size as `count`, and the cursors
      measured against the whole collection. */
  function Run<D>(q: seq<Entry>, store: Store<D>): (r: Result<Envelope<D>, Js.JsError>)
    ensures NotText(Lookup(q, "select")) ==> r == Err(SplitError("select"))
    ensures !NotText(Lookup(q, "select")) && NotText(Lookup(q, "sort")) ==> r == Err(SplitError("sort"))
    ensures var page := IntParsing.ParamOr(Lookup(q, "page"), DefaultPage);
            var limit := IntParsing.ParamOr(Lookup(q, "limit"), DefaultLimit);
      !NotText(Lookup(q, "select")) && !NotText(Lookup(q, "sort"))
      ==> (r.Err? <==> !store.Healthy() || (page - 1) * limit < 0)
          && (r.Err? ==> Some(r.error) == StoreFailure(store, (page - 1) * limit))
    ensures var page := IntParsing.ParamOr(Lookup(q, "page"), DefaultPage);
            var limit := IntParsing.ParamOr(Lookup(q, "limit"), DefaultLimit);
      r.Ok? ==> store.Healthy() && (page - 1) * limit >= 0
                && r.value.success
                && r.value.data == PageOf(store.docs, (page - 1) * limit, Abs(limit))
                && r.value.count == |r.value.data|
                && (r.value.pagination.next.Some? <==> page * limit < store.total)
                && (r.value.pagination.prev.Some? <==> (page - 1) * limit > 0)
  {
    match BuildPlan(q)
    case Err(e) => Err(e)
    case Ok(plan) =>
      assert plan.page == IntParsing.ParamOr(Lookup(q, "page"), DefaultPage);
      assert plan.limit == IntParsing.ParamOr(Lookup(q, "limit"), DefaultLimit);
      Execute(plan, store)
  }

  // ---------------------------------------------------------------------
  // Properties of the pages and cursors

  /** A page spans exactly `limit` indices. */
  lemma PageSpan(plan: Plan)
    ensures plan.LastIndex() - plan.StartIndex() == plan.limit
  {
  }

  /** An empty collection at page 1 has neither cursor. */
  lemma EmptyCollectionNoCursors(plan: Plan)
    requires plan.page == 1 && plan.limit > 0
    ensures Paginate(plan, 0) == Pagination(None, None)
  {
  }

  /** Following `next` continues where this page ended: a query whose
      `page` and `limit` are the decimal text of the cursor's fields
      plans a page that starts at this page's `LastIndex`, and its `prev`
      cursor (when it has one) leads back here. */
  lemma {:induction false} NextCursorContinues(plan: Plan, q: seq<Entry>, total: nat)
    requires plan.limit != 0 && plan.page + 1 != 0
    requires Paginate(plan, total).next.Some?
    requires !NotText(Lookup(q, "select")) && !NotText(Lookup(q, "sort"))
    requires Lookup(q, "page") == Some(Str(IntParsing.Decimal(plan.page + 1)))
    requires Lookup(q, "limit") == Some(Str(IntParsing.Decimal(plan.limit)))
    ensures BuildPlan(q).Ok?
    ensures BuildPlan(q).value.page == plan.page + 1 && BuildPlan(q).value.limit == plan.limit
    ensures BuildPlan(q).value.StartIndex() == plan.LastIndex()
    ensures var back := Paginate(BuildPlan(q).value, total).prev;
      back.Some? ==> back.value == Cursor(plan.page, plan.limit)
  {
    IntParsing.ParamKeepsNonZero(plan.page + 1, DefaultPage);
    IntParsing.ParamKeepsNonZero(plan.limit, DefaultLimit);
    var next := BuildPlan(q).value;
    assert next.page == plan.page + 1 && next.limit == plan.limit;
    assert next.StartIndex() == plan.page * plan.limit;
  }

  /** When the matching documents are the whole collection and the page
      and limit are positive, a `next` cursor is given exactly when the
      next page holds a document. */
  lemma NextIffMoreDocuments<D>(plan: Plan, docs: seq<D>)
    requires plan.page >= 1 && plan.limit >= 1
    ensures Paginate(plan, |docs|).next.Some? <==> |PageOf(docs, plan.LastIndex(), plan.limit)| > 0
  {
    assert plan.LastIndex() >= 0 by {
      assert plan.page * plan.limit >= 1 * plan.limit;
    }
  }

  /** Because `total` counts the whole collection, a filtered listing can
      offer a `next` cursor to a page with nothing on it. */
  lemma NextIgnoresFilter<D>(q: seq<Entry>, store: Store<D>)
    requires BuildPlan(q).Ok? && BuildPlan(q).value.page == 1 && BuildPlan(q).value.limit == 15
    requires store.Healthy() && store.docs == [] && store.total == 20
    ensures var r := Run(q, store);
      r.Ok? && r.value.count == 0 && r.value.pagination.next == Some(Cursor(2, 15))
  {
  }

  /** The pages 1 to n, one after the other. */
  function Pages<D>(docs: seq<D>, limit: nat, n: nat): seq<D> {
    if n == 0 then [] else Pages(docs, limit, n - 1) + PageOf(docs, (n - 1) * limit, limit)
  }

  /** Walking the pages from the first never skips or repeats a document:
      the first n pages together are the first n * limit documents. */
  lemma {:induction false} PagesCover<D>(docs: seq<D>, limit: nat, n: nat)
    requires limit >= 1
    ensures Pages(docs, limit, n) == docs[..Min(|docs|, n * limit)]
  {
    if n > 0 {
      var s := (n - 1) * limit;
      NonNegativeProduct(n - 1, limit);
      assert s + limit == n * limit;
      PagesCover(docs, limit, n - 1);
      PrefixThenPage(docs, s, limit);
    }
  }

  /** The documents before `s` followed by the page at `s`. */
  lemma PrefixThenPage<D>(docs: seq<D>, s: nat, limit: nat)
    ensures docs[..Min(|docs|, s)] + PageOf(docs, s, limit) == docs[..Min(|docs|, s + limit)]
  {
    if s < |docs| {
      TakeSlice(docs, s, Min(|docs|, s + limit));
    }
  }

  /** What the middleware returns for any `page` and `limit` text that
      `parseInt` reads as n and l is the n-th page: after pages 1 to
      n - 1 it completes the walk of `Pages`, so (by `PagesCover`) the
      pages seen so far are exactly the first n * l matching documents,
      with nothing skipped or repeated. */
  lemma {:induction false} RunContinuesPages<D>(q: seq<Entry>, store: Store<D>, n: nat, l: nat)
    requires n >= 1 && l >= 1 && store.Healthy()
    requires !NotText(Lookup(q, "select")) && !NotText(Lookup(q, "sort"))
    requires IntParsing.ParamOr(Lookup(q, "page"), DefaultPage) == n
    requires IntParsing.ParamOr(Lookup(q, "limit"), DefaultLimit) == l
    ensures Run(q, store).Ok?
    ensures Pages(store.docs, l, n - 1) + Run(q, store).value.data == Pages(store.docs, l, n)
  {
    var plan := BuildPlan(q).value;
    RunIsExecute(q, store);
    ExecuteNextPage(plan, store, n, l);
  }

  lemma RunIsExecute<D>(q: seq<Entry>, store: Store<D>)
    requires BuildPlan(q).Ok?
    ensures Run(q, store) == Execute(BuildPlan(q).value, store)
  {
  }

  /** Page n of the plan completes the walk of the first n pages. */
  lemma ExecuteNextPage<D>(plan: Plan, store: Store<D>, n: nat, l: nat)
    requires n >= 1 && l >= 1 && plan.page == n && plan.limit == l && store.Healthy()
    ensures Execute(plan, store).Ok?
    ensures Pages(store.docs, l, n - 1) + Execute(plan, store).value.data == Pages(store.docs, l, n)
  {
    var start := plan.StartIndex();
    assert start == (n - 1) * l;
    NonNegativeProduct(n - 1, l);
    assert Execute(plan, store).value.data == PageOf(store.docs, start, l);
  }

  lemma NonNegativeProduct(a: int, b: int)
    requires a >= 0 && b >= 0
    ensures a * b >= 0
  {
  }

  lemma TakeSlice<D>(docs: seq<D>, s: int, m: int)
    requires 0 <= s <= m <= |docs|
    ensures docs[..s] + docs[s..m] == docs[..m]
  {
  }

  /** Twenty matching documents, `?page=2&limit=5`: documents 5 to 9,
      a count of 5, and cursors to pages 3 and 1. */
  lemma TwentyDocumentsSecondPage<D>(store: Store<D>)
    requires |store.docs| == 20 && store.total == 20 && store.Healthy()
    ensures var r := Run([Entry("page", Str("2")), Entry("limit", Str("5"))], store);
      r.Ok? && r.value.data == store.docs[5..10] && r.value.count == 5
      && r.value.pagination == Pagination(Some(Cursor(3, 5)), Some(Cursor(1, 5)))
  {
    IntParsing.ParamKeepsNonZero(2, DefaultPage);
    IntParsing.ParamKeepsNonZero(5, DefaultLimit);
    assert IntParsing.Decimal(2) == "2";
    assert IntParsing.Decimal(5) == "5";
    var q := [Entry("page", Str("2")), Entry("limit", Str("5"))];
    assert Lookup(q, "page") == Some(Str("2"));
    assert Lookup(q, "limit") == Some(Str("5"));
    var plan := BuildPlan(q).value;
    assert plan.page == 2 && plan.limit == 5;
  }

  /** A negative page with a positive limit asks the store for a negative
      skip, and the store's refusal is what the client gets. */
  lemma NegativePageRefused<D>(q: seq<Entry>, store: Store<D>)
    requires BuildPlan(q).Ok? && BuildPlan(q).value.page < 0 && BuildPlan(q).value.limit > 0
    requires store.Healthy()
    ensures Run(q, store) == Err(store.skipError)
  {
    var plan := BuildPlan(q).value;
    var p, l := plan.page - 1, plan.limit;
    assert p * l < 0 by {
      NegativeProduct(p, l);
    }
    assert plan.StartIndex() < 0;
    assert Run(q, store) == Execute(plan, store);
  }

  /** A filter value the schema cannot cast, such as `?price=abc` on a
      numeric field, makes the query fail with a CastError, which reaches
      the client as 404 "Resource not found" whatever page was asked for. */
  lemma UncastableFilterIs404<D>(q: seq<Entry>, store: Store<D>, e: Js.JsError)
    requires !NotText(Lookup(q, "select")) && !NotText(Lookup(q, "sort"))
    requires store.countError.None? && store.queryError == Some(e)
    requires ErrorHandler.IsCastError(e) && !ErrorHandler.IsFileTooLarge(e)
    ensures Run(q, store) == Err(e)
    ensures ErrorHandler.Handle(Run(q, store).error) == ErrorHandler.Response(404, false, "Resource not found")
  {
    RunIsExecute(q, store);
  }

  lemma SelectErrorText()
    ensures "req.query." + "select" + ".split is not a function" == "req.query.select.split is not a function"
  {
  }

  lemma NegativeProduct(a: int, b: int)
    requires a < 0 && b > 0
    ensures a * b < 0
  {
  }

}
