/** The request/response normaliser of the API: request bodies and query maps
    get snake_case keys, responses get camelCase keys, paging parameters of a
    request are parsed to integers, and values under date-like keys are
    reformatted. */
module CaseInterceptor {
  import opened Wrappers
  import opened Text
  import opened JsValues
  import opened Entries

  /** The library functions the normaliser calls, whose bodies are not part of
      this model: key re-casing from change-case-object, the project's
      `formatTime`, and `parseInt` (`None` is NaN). */
  datatype Helpers = Helpers(
    camelCase: string -> string,
    snakeCase: string -> string,
    formatTime: Json -> Json,
    parseInt: Json -> Option<int>)

  /** Inbound values (request body and query) are converted to snake_case,
      outbound values (response data) to camelCase. */
  datatype Direction = ToSnake | ToCamel

  /** Keys whose request values are coerced with `parseInt`. */
  const PagingParams: seq<string> := ["page", "limit"]

  function RenameKey(h: Helpers, d: Direction, key: string): string {
    match d
    case ToSnake => h.snakeCase(key)
    case ToCamel => h.camelCase(key)
  }

  /** The date heuristic: the converted key mentions `date` or `At`. */
  predicate IsDateKey(key: string) {
    Includes(key, "date") || Includes(key, "At")
  }

  function FormatDates(h: Helpers, key: string, value: Json): Json {
    if IsDateKey(key) then h.formatTime(value) else value
  }

  /** The number `parseInt` yields, as a JavaScript value. */
  function ParseIntValue(h: Helpers, v: Json): (r: Json)
    ensures r.Num? || r.NaN?
    ensures r.NaN? <==> h.parseInt(v).None?
    ensures !IsContainer(r)
  {
    match h.parseInt(v)
    case Some(n) => Num(n)
    case None => NaN
  }

  /** Only requests coerce, and only the keys spelled exactly `page` or `limit`. */
  predicate Coerces(d: Direction, key: string) {
    d == ToSnake && key in PagingParams
  }

  /** `convertToSnakeCase` / `convertToCamelCase`. */
  function Convert(h: Helpers, d: Direction, v: Json): (r: Json)
    ensures !IsContainer(v) ==> r == v
    ensures r.Arr? <==> v.Arr?
    ensures r.Obj? <==> v.Obj?
    ensures v.Arr? ==> |r.items| == |v.items|
    ensures v.Obj? ==> UniqueKeys(r.members) && |r.members| <= |v.members|
    decreases v
  {
    match v
    case Arr(items) => Arr(seq(|items|, i requires 0 <= i < |items| => Convert(h, d, items[i])))
    case Obj(ms) => Obj(FromEntries(seq(|ms|, i requires 0 <= i < |ms| => ConvertMember(h, d, ms[i]))))
    case _ => v
  }

  /** One `[key, value]` entry handed to `Object.fromEntries`. A coerced
      paging value is a number, and converting a number returns it unchanged
      (see `ConvertScalar`), so the parsed value is written directly. */
  function ConvertMember(h: Helpers, d: Direction, m: Member): Member
    decreases m
  {
    var key := RenameKey(h, d, m.key);
    var value := if Coerces(d, m.key) then ParseIntValue(h, m.value) else Convert(h, d, m.value);
    Member(key, FormatDates(h, key, value))
  }

  /** The entries of an object after conversion, before `Object.fromEntries`. */
  function ConvertedEntries(h: Helpers, d: Direction, ms: seq<Member>): seq<Member> {
    seq(|ms|, i requires 0 <= i < |ms| => ConvertMember(h, d, ms[i]))
  }

  /** An array maps to an array of the same length whose element `i` is the
      conversion of element `i`. */
  lemma ConvertArray(h: Helpers, d: Direction, items: seq<Json>)
    ensures Convert(h, d, Arr(items)).Arr?
    ensures |Convert(h, d, Arr(items)).items| == |items|
    ensures forall i :: 0 <= i < |items| ==>
      Convert(h, d, Arr(items)).items[i] == Convert(h, d, items[i])
  {
  }

  /** The keys of a converted object are exactly the re-cased input keys. */
  lemma ConvertObjectKeys(h: Helpers, d: Direction, ms: seq<Member>)
    ensures Convert(h, d, Obj(ms)).Obj?
    ensures Keys(Convert(h, d, Obj(ms)).members) == set m | m in ms :: RenameKey(h, d, m.key)
  {
    var es := ConvertedEntries(h, d, ms);
    assert Convert(h, d, Obj(ms)).members == FromEntries(es);
    forall k | k in Keys(es) ensures k in set m | m in ms :: RenameKey(h, d, m.key) {
      var e :| e in es && e.key == k;
      var i :| 0 <= i < |es| && es[i] == e;
      assert ms[i] in ms;
    }
    forall m | m in ms ensures RenameKey(h, d, m.key) in Keys(es) {
      var i :| 0 <= i < |ms| && ms[i] == m;
      assert es[i] in es;
    }
  }

  /** No member after `ms[i]` re-cases to the same key as `ms[i]`. */
  ghost predicate IsLastRenamed(h: Helpers, d: Direction, ms: seq<Member>, i: int) {
    0 <= i < |ms| &&
    forall i' :: i < i' < |ms| ==> RenameKey(h, d, ms[i'].key) != RenameKey(h, d, ms[i].key)
  }

  /** When two keys re-case to the same name, the property holds the
      conversion of the LAST of them. */
  lemma ConvertObjectLastWins(h: Helpers, d: Direction, ms: seq<Member>)
    ensures Convert(h, d, Obj(ms)).Obj?
    ensures forall j :: 0 <= j < |Convert(h, d, Obj(ms)).members| ==>
      exists i :: IsLastRenamed(h, d, ms, i) && Convert(h, d, Obj(ms)).members[j] == ConvertMember(h, d, ms[i])
  {
    var es := ConvertedEntries(h, d, ms);
    var out := Convert(h, d, Obj(ms)).members;
    assert |es| == |ms|;
    assert out == FromEntries(es);
    FromEntriesLastWins(es);
    forall j | 0 <= j < |out|
      ensures exists i :: IsLastRenamed(h, d, ms, i) && out[j] == ConvertMember(h, d, ms[i])
    {
      var i := LastIndex(es, out[j].key);
      assert out[j] == es[i];
      assert es[i] == ConvertMember(h, d, ms[i]);
      forall i' | i < i' < |ms| ensures RenameKey(h, d, ms[i'].key) != RenameKey(h, d, ms[i].key) {
        assert es[i'] == ConvertMember(h, d, ms[i']);
      }
      assert IsLastRenamed(h, d, ms, i);
    }
  }

  /** Re-cased keys of an object are pairwise different. */
  ghost predicate DistinctRenamed(h: Helpers, d: Direction, ms: seq<Member>) {
    forall i, j :: 0 <= i < j < |ms| ==> RenameKey(h, d, ms[i].key) != RenameKey(h, d, ms[j].key)
  }

  /** Without re-casing collisions every entry survives, in place; with one,
      the object loses entries. */
  lemma ConvertObjectEntries(h: Helpers, d: Direction, ms: seq<Member>)
    ensures Convert(h, d, Obj(ms)).Obj?
    ensures |Convert(h, d, Obj(ms)).members| == |ms| <==> DistinctRenamed(h, d, ms)
    ensures DistinctRenamed(h, d, ms) ==>
      forall i :: 0 <= i < |ms| ==> Convert(h, d, Obj(ms)).members[i] == ConvertMember(h, d, ms[i])
  {
    var es := ConvertedEntries(h, d, ms);
    assert Convert(h, d, Obj(ms)).members == FromEntries(es);
    assert UniqueKeys(es) <==> DistinctRenamed(h, d, ms) by {
      assert forall i :: 0 <= i < |ms| ==> es[i].key == RenameKey(h, d, ms[i].key);
    }
    FromEntriesLength(es);
    if DistinctRenamed(h, d, ms) {
      FromEntriesOfUnique(es);
    }
  }

  /** Requests only: a member keyed exactly `page` or `limit` carries the
      `parseInt` of its value (a number or NaN), whatever it held before. */
  lemma InboundPagingCoerced(h: Helpers, m: Member)
    requires m.key == "page" || m.key == "limit"
    ensures ConvertMember(h, ToSnake, m).key == h.snakeCase(m.key)
    ensures ConvertMember(h, ToSnake, m).value ==
      FormatDates(h, h.snakeCase(m.key), ParseIntValue(h, m.value))
  {
  }

  /** Responses never coerce: the camelCase conversion does not consult
      `parseInt` at any depth. */
  lemma {:induction false} OutboundNeverParses(h: Helpers, parse: Json -> Option<int>, v: Json)
    ensures Convert(h, ToCamel, v) == Convert(h.(parseInt := parse), ToCamel, v)
    decreases v
  {
    var h' := h.(parseInt := parse);
    match v
    case Arr(items) =>
      forall i | 0 <= i < |items| ensures Convert(h, ToCamel, items[i]) == Convert(h', ToCamel, items[i]) {
        OutboundNeverParses(h, parse, items[i]);
      }
      assert Convert(h, ToCamel, v).items == Convert(h', ToCamel, v).items;
    case Obj(ms) =>
      forall i | 0 <= i < |ms| ensures ConvertMember(h, ToCamel, ms[i]) == ConvertMember(h', ToCamel, ms[i]) {
        OutboundNeverParses(h, parse, ms[i].value);
      }
      assert ConvertedEntries(h, ToCamel, ms) == ConvertedEntries(h', ToCamel, ms);
    case _ =>
  }

  /** `IsDateKey` is the positional reading of the heuristic: `date` or `At`
      occurs somewhere in the converted key, case-sensitively. */
  lemma DateKeyIffOccurs(key: string)
    ensures IsDateKey(key) <==> (exists i :: OccursAt(key, "date", i)) || (exists i :: OccursAt(key, "At", i))
  {
    IncludesIffOccurs(key, "date");
    IncludesIffOccurs(key, "At");
  }

  /** A value goes through `formatTime` exactly when its converted key is
      date-like; otherwise it is the plain recursive conversion. Formatting
      comes after recursion, so a nested object reaches `formatTime` with its
      own keys already re-cased. */
  lemma ConvertMemberDates(h: Helpers, d: Direction, m: Member)
    ensures !Coerces(d, m.key) && IsDateKey(RenameKey(h, d, m.key)) ==>
      ConvertMember(h, d, m).value == h.formatTime(Convert(h, d, m.value))
    ensures !Coerces(d, m.key) && !IsDateKey(RenameKey(h, d, m.key)) ==>
      ConvertMember(h, d, m).value == Convert(h, d, m.value)
    ensures !Coerces(d, m.key) && IsDateKey(RenameKey(h, d, m.key)) && m.value.Obj? ==>
      exists out: seq<Member> ::
        ConvertMember(h, d, m).value == h.formatTime(Obj(out)) &&
        Keys(out) == set n | n in m.value.members :: RenameKey(h, d, n.key)
  {
    if !Coerces(d, m.key) && IsDateKey(RenameKey(h, d, m.key)) && m.value.Obj? {
      ConvertObjectKeys(h, d, m.value.members);
      var out := Convert(h, d, m.value).members;
      assert ConvertMember(h, d, m).value == h.formatTime(Obj(out));
    }
  }

  /** Two values with the same array/object nesting and the same element and
      entry counts at every level. */
  ghost predicate SameShape(a: Json, b: Json)
    decreases a
  {
    match a
    case Arr(xs) =>
      b.Arr? && |xs| == |b.items| && forall i :: 0 <= i < |xs| ==> SameShape(xs[i], b.items[i])
    case Obj(ms) =>
      b.Obj? && |ms| == |b.members| && forall i :: 0 <= i < |ms| ==> SameShape(ms[i].value, b.members[i].value)
    case _ => !IsContainer(b)
  }

  /** A tree whose converted keys are never date-like, never collide within
      one object, and (for requests) whose paging parameters hold scalars. */
  ghost predicate Plain(h: Helpers, d: Direction, v: Json)
    decreases v
  {
    match v
    case Arr(items) => forall i :: 0 <= i < |items| ==> Plain(h, d, items[i])
    case Obj(ms) =>
      DistinctRenamed(h, d, ms) &&
      forall i :: 0 <= i < |ms| ==>
        !IsDateKey(RenameKey(h, d, ms[i].key)) &&
        (Coerces(d, ms[i].key) ==> !IsContainer(ms[i].value)) &&
        Plain(h, d, ms[i].value)
    case _ => true
  }

  /** On such a tree conversion keeps the shape. */
  lemma {:induction false} ConvertKeepsShape(h: Helpers, d: Direction, v: Json)
    requires Plain(h, d, v)
    ensures SameShape(v, Convert(h, d, v))
    decreases v
  {
    match v
    case Arr(items) =>
      forall i | 0 <= i < |items| ensures SameShape(items[i], Convert(h, d, v).items[i]) {
        ConvertKeepsShape(h, d, items[i]);
      }
    case Obj(ms) =>
      ConvertObjectEntries(h, d, ms);
      var out := Convert(h, d, v).members;
      forall i | 0 <= i < |ms| ensures SameShape(ms[i].value, out[i].value) {
        ConvertMemberDates(h, d, ms[i]);
        if Coerces(d, ms[i].key) {
          assert out[i].value == ParseIntValue(h, ms[i].value);
        } else {
          ConvertKeepsShape(h, d, ms[i].value);
        }
      }
    case _ =>
  }

  /** What a request handler receives and what the client gets back. */
  datatype Request = Request(body: Json, query: Json)
  datatype Exchange = Exchange(request: Request, response: Json)

  /** `intercept`: body and query are converted to snake_case when present,
      and the handler's response is converted to camelCase. */
  function Intercept(h: Helpers, req: Request, handle: Request -> Json): (x: Exchange)
    ensures x.request.body == Convert(h, ToSnake, req.body)
    ensures x.request.query == Convert(h, ToSnake, req.query)
    ensures x.response == Convert(h, ToCamel, handle(x.request))
  {
    var body := if Truthy(req.body) then Convert(h, ToSnake, req.body) else req.body;
    var query := if Truthy(req.query) then Convert(h, ToSnake, req.query) else req.query;
    var request := Request(body, query);
    Exchange(request, Convert(h, ToCamel, handle(request)))
  }
}
