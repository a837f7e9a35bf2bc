/**
  Server-side poll creation (`POST /api/polls`): validation of the request
  body, the optional absolute expiry, and the numbered option rows returned
  to the client sorted by position.

  The request body arrives as JSON, so each field is a `Json` value; an
  absent field is `Missing` (JavaScript `undefined`). Database ids and the
  clock are parameters.
 */
module CreatePoll {
  import opened Wrappers
  import opened JsText

  /**
    A JSON value as the request body or its fields can hold it (numbers are
    integers here); `Missing` is JavaScript `undefined`, which JSON never
    produces but reading an absent field does.
   */
  datatype Json =
    | Missing
    | Null
    | Bool(b: bool)
    | Num(n: int)
    | Str(s: string)
    | Arr(items: seq<Json>)
    | Obj(fields: map<string, Json>)

  /** JavaScript truthiness: `undefined`, `null`, `false`, `0` and `""` are falsy. */
  predicate Truthy(v: Json) {
    match v
    case Missing => false
    case Null => false
    case Bool(b) => b
    case Num(n) => n != 0
    case Str(s) => s != []
    case Arr(_) => true
    case Obj(_) => true
  }

  /**
    The ways the handler answers without creating a poll. `InternalError` is
    the outer `catch`: calling `.trim()` on a truthy value that is not a string
    throws a TypeError, which ends there.
   */
  datatype CreateError = QuestionRequired | OptionsRequired | ValidOptionsRequired | InternalError

  function Status(e: CreateError): (code: int)
    ensures code == 500 <==> e == InternalError
    ensures code != 500 ==> code == 400
  {
    if e == InternalError then 500 else 400
  }

  /** The `error` text of the JSON answer. */
  function Message(e: CreateError): string {
    match e
    case QuestionRequired => "Question is required"
    case OptionsRequired => "At least 2 options are required"
    case ValidOptionsRequired => "At least 2 valid options are required"
    case InternalError => "Failed to create poll"
  }

  /** An `Option` row as inserted: its text, its zero-based position and the poll it belongs to. */
  datatype OptionRow = OptionRow(text: string, position: int, pollId: string)

  /** The 201 response: the new poll's id, stored question, expiry (ms) and its options. */
  datatype PollDraft = PollDraft(id: string, question: string, expiresAt: Option<int>, options: seq<OptionRow>)

  /** An entry `options.filter(opt => opt && opt.trim())` keeps. */
  predicate KeptOption(v: Json) {
    v.Str? && !IsBlank(v.s)
  }

  /** An entry on which that filter throws: truthy, so `.trim()` is called, but not a string. */
  predicate ThrowsOnTrim(v: Json) {
    Truthy(v) && !v.Str?
  }

  /**
    `options.filter(opt => opt && opt.trim())`: a TypeError if some entry is
    truthy but not a string, otherwise the strings that are not blank, in order.
   */
  function ValidOptions(options: seq<Json>): (r: Result<seq<string>, CreateError>)
    ensures r.Failure? <==> exists i :: 0 <= i < |options| && ThrowsOnTrim(options[i])
    ensures r.Failure? ==> r.error == InternalError
    ensures r.Success? ==> |r.value| <= |options|
  {
    if options == [] then Success([])
    else
      var rest := ValidOptions(options[1..]);
      if rest.Failure? then rest
      else if ThrowsOnTrim(options[0]) then Failure(InternalError)
      else if KeptOption(options[0]) then Success([options[0].s] + rest.value)
      else rest
  }

  /** No blank string survives the filter. */
  lemma {:induction false} ValidOptionsNonBlank(options: seq<Json>)
    requires ValidOptions(options).Success?
    ensures forall i :: 0 <= i < |ValidOptions(options).value| ==> !IsBlank(ValidOptions(options).value[i])
  {
    if options != [] {
      ValidOptionsNonBlank(options[1..]);
    }
  }

  /** On one entry the filter throws, keeps its string, or drops it. */
  lemma ValidOptionsOne(v: Json)
    ensures ValidOptions([v]) == if ThrowsOnTrim(v) then Failure(InternalError)
                                 else if KeptOption(v) then Success([v.s])
                                 else Success([])
  {
    assert [v][1..] == [];
    assert ValidOptions([]) == Success([]);
    if KeptOption(v) {
      assert [v.s] + [] == [v.s];
    }
  }

  /**
    The filter works entry by entry, so it keeps the original order: together
    with `ValidOptionsOne` this pins the result down as the kept strings in order.
   */
  lemma {:induction false} ValidOptionsAppend(a: seq<Json>, b: seq<Json>)
    requires ValidOptions(a).Success? && ValidOptions(b).Success?
    ensures ValidOptions(a + b) == Success(ValidOptions(a).value + ValidOptions(b).value)
  {
    if a == [] {
      assert a + b == b;
      assert ValidOptions(a).value == [];
      assert [] + ValidOptions(b).value == ValidOptions(b).value;
    } else {
      var c := a + b;
      assert c[0] == a[0] && c[1..] == a[1..] + b;
      assert ValidOptions(a[1..]).Success?;
      ValidOptionsAppend(a[1..], b);
      var va, vb := ValidOptions(a[1..]).value, ValidOptions(b).value;
      assert ValidOptions(c[1..]) == Success(va + vb);
      if KeptOption(a[0]) {
        assert ValidOptions(a) == Success([a[0].s] + va);
        assert ValidOptions(c) == Success([a[0].s] + (va + vb));
        assert [a[0].s] + (va + vb) == ([a[0].s] + va) + vb;
      } else {
        assert ValidOptions(a) == Success(va);
        assert ValidOptions(c) == Success(va + vb);
      }
    }
  }

  /** The JSON array a list of strings is sent as. */
  function Strings(list: seq<string>): (r: seq<Json>)
    ensures |r| == |list|
    ensures forall i :: 0 <= i < |r| ==> r[i] == Str(list[i])
  {
    seq(|list|, i requires 0 <= i < |list| => Str(list[i]))
  }

  /** On an array of strings the server filter is exactly the form's `filter(opt => opt.trim())`. */
  lemma {:induction false} ValidOptionsOfStrings(list: seq<string>)
    ensures ValidOptions(Strings(list)) == Success(NonBlank(list))
  {
    if list != [] {
      assert Strings(list)[1..] == Strings(list[1..]);
      ValidOptionsOfStrings(list[1..]);
    }
  }

  /** The largest magnitude of a JavaScript Date's time value, in ms; beyond it `new Date(t)` is an Invalid Date. */
  const MaxTimeMs: int := 8640000000000000

  predicate InDateRange(t: int) {
    -MaxTimeMs <= t <= MaxTimeMs
  }

  /** `expiresIn` seconds, when it is a positive number, as an absolute time in ms. */
  function ExpiresAt(expiresIn: Json, nowMs: int): (r: Option<int>)
    ensures r.Some? <==> expiresIn.Num? && expiresIn.n > 0
    ensures r.Some? ==> r.value > nowMs && r.value - nowMs == expiresIn.n * 1000
  {
    if Truthy(expiresIn) && expiresIn.Num? && expiresIn.n > 0 then Some(nowMs + expiresIn.n * 1000) else None
  }

  /**
    The expiry can be stored: there is none, or it is a valid Date. An Invalid
    Date is refused by the poll insert, which ends in the outer `catch`.
   */
  predicate StorableExpiry(expiresIn: Json, nowMs: int) {
    var at := ExpiresAt(expiresIn, nowMs);
    at.None? || InDateRange(at.value)
  }

  /** `validOptions.map((text, index) => ({ text: text.trim(), position: index, pollId }))`. */
  function NumberOptions(valid: seq<string>, pollId: string): (rows: seq<OptionRow>)
    ensures |rows| == |valid|
    ensures forall i :: 0 <= i < |rows| ==> rows[i] == OptionRow(Trim(valid[i]), i, pollId)
  {
    seq(|valid|, i requires 0 <= i < |valid| => OptionRow(Trim(valid[i]), i, pollId))
  }

  predicate SortedByPosition(rows: seq<OptionRow>) {
    forall i, j :: 0 <= i < j < |rows| ==> rows[i].position <= rows[j].position
  }

  /** Inserts `x` before the first row whose position is not smaller. */
  function InsertByPosition(x: OptionRow, rows: seq<OptionRow>): (r: seq<OptionRow>)
    requires SortedByPosition(rows)
    ensures SortedByPosition(r)
    ensures multiset(r) == multiset(rows) + multiset{x}
    ensures |r| == |rows| + 1
  {
    if rows == [] || x.position <= rows[0].position then
      PrependSorted(x, rows);
      [x] + rows
    else
      var t := InsertByPosition(x, rows[1..]);
      assert rows == [rows[0]] + rows[1..];
      LowerBound(rows[0].position, x, rows[1..], t);
      PrependSorted(rows[0], t);
      [rows[0]] + t
  }

  lemma PrependSorted(h: OptionRow, t: seq<OptionRow>)
    requires SortedByPosition(t)
    requires forall k :: 0 <= k < |t| ==> h.position <= t[k].position
    ensures SortedByPosition([h] + t)
  {
    var r := [h] + t;
    forall i, j | 0 <= i < j < |r| ensures r[i].position <= r[j].position {
      assert r[j] == t[j - 1];
      if i > 0 { assert r[i] == t[i - 1]; }
    }
  }

  /** A bound below `x` and below all of `rows` is below every row of a permutation of them. */
  lemma LowerBound(bound: int, x: OptionRow, rows: seq<OptionRow>, t: seq<OptionRow>)
    requires bound <= x.position
    requires forall k :: 0 <= k < |rows| ==> bound <= rows[k].position
    requires multiset(t) == multiset(rows) + multiset{x}
    ensures forall k :: 0 <= k < |t| ==> bound <= t[k].position
  {
    forall k | 0 <= k < |t| ensures bound <= t[k].position {
      assert t[k] in multiset(t);
      if t[k] != x {
        assert t[k] in multiset(rows);
        var j :| 0 <= j < |rows| && rows[j] == t[k];
      }
    }
  }

  /**
    `rows.sort((a, b) => a.position - b.position)`. JavaScript's sort is stable,
    so the result is the unique stable ordering, which this insertion sort builds.
   */
  function SortByPosition(rows: seq<OptionRow>): (r: seq<OptionRow>)
    ensures SortedByPosition(r)
    ensures multiset(r) == multiset(rows)
    ensures |r| == |rows|
  {
    if rows == [] then []
    else
      assert rows == [rows[0]] + rows[1..];
      InsertByPosition(rows[0], SortByPosition(rows[1..]))
  }

  /** Rows already in position order come back from the sort in the same order. */
  lemma {:induction false} SortSortedUnchanged(rows: seq<OptionRow>)
    requires SortedByPosition(rows)
    ensures SortByPosition(rows) == rows
  {
    if rows != [] {
      var tail := rows[1..];
      assert SortedByPosition(tail) by {
        forall i, j | 0 <= i < j < |tail| ensures tail[i].position <= tail[j].position {
          assert tail[i] == rows[i + 1] && tail[j] == rows[j + 1];
        }
      }
      SortSortedUnchanged(tail);
      assert tail == [] || rows[0].position <= tail[0].position;
      assert [rows[0]] + tail == rows;
    }
  }

  /**
    The handler from the body's three fields to its answer. `nowMs` is
    `Date.now()`; `pollId` is the id the database assigns to the inserted poll.
    The database returns each inserted option row as given, so the rows sorted
    at the end are the numbered options.
   */
  function Create(question: Json, options: Json, expiresIn: Json, nowMs: int, pollId: string): (r: Result<PollDraft, CreateError>)
    ensures r.Success? ==> r.value.id == pollId
    ensures r.Success? ==> |r.value.options| >= 2
  {
    if !Truthy(question) then Failure(QuestionRequired)
    else if !question.Str? then Failure(InternalError)
    else if IsBlank(question.s) then Failure(QuestionRequired)
    else if !Truthy(options) || !options.Arr? || |options.items| < 2 then Failure(OptionsRequired)
    else
      var valid := ValidOptions(options.items);
      if valid.Failure? then Failure(valid.error)
      else if |valid.value| < 2 then Failure(ValidOptionsRequired)
      else if !StorableExpiry(expiresIn, nowMs) then Failure(InternalError)
      else
        var rows := NumberOptions(valid.value, pollId);
        Success(PollDraft(pollId, Trim(question.s), ExpiresAt(expiresIn, nowMs), SortByPosition(rows)))
  }

  /** A field of the body as destructuring reads it: absent fields are `undefined`. */
  function Field(body: Json, key: string): (v: Json)
    ensures v != Missing ==> body.Obj? && key in body.fields
    ensures body.Obj? && key in body.fields ==> v == body.fields[key]
  {
    if body.Obj? && key in body.fields then body.fields[key] else Missing
  }

  /**
    `POST /api/polls` from the parsed body (`None` when it is not JSON):
    `request.json()` throws on a body that is not JSON, and destructuring
    `null` throws, both ending in the outer `catch`; any other body is
    destructured into its three fields.
   */
  function Post(body: Option<Json>, nowMs: int, pollId: string): (r: Result<PollDraft, CreateError>)
    ensures body.None? || body.value.Null? || body.value.Missing? ==> r == Failure(InternalError)
    ensures r.Success? ==> body.Some? && body.value.Obj?
    ensures body.Some? && body.value.Obj? ==>
              r == Create(Field(body.value, "question"), Field(body.value, "options"), Field(body.value, "expiresIn"),
                          nowMs, pollId)
  {
    if body.None? || body.value.Null? || body.value.Missing? then Failure(InternalError)
    else
      var b := body.value;
      Create(Field(b, "question"), Field(b, "options"), Field(b, "expiresIn"), nowMs, pollId)
  }

  /**
    A JSON body that is neither an object nor `null` (a number, string,
    boolean or array) has no such fields, so it is answered like a body
    whose question is missing.
   */
  lemma NonObjectBody(body: Json, nowMs: int, pollId: string)
    requires !body.Obj? && !body.Null? && !body.Missing?
    ensures Post(Some(body), nowMs, pollId) == Failure(QuestionRequired)
  {
  }

  /** Numbered rows are already in position order. */
  lemma NumberedSorted(valid: seq<string>, pollId: string)
    ensures SortedByPosition(NumberOptions(valid, pollId))
  {
  }

  /** The answer is an error with this status and this `error` text. */
  predicate Refused(r: Result<PollDraft, CreateError>, status: int, text: string) {
    r.Failure? && Status(r.error) == status && Message(r.error) == text
  }

  /** A missing, empty or whitespace-only question is answered 400 "Question is required". */
  lemma QuestionRequiredExactly(question: Json, options: Json, expiresIn: Json, nowMs: int, pollId: string)
    ensures Refused(Create(question, options, expiresIn, nowMs, pollId), 400, "Question is required")
            <==> !Truthy(question) || (question.Str? && IsBlank(question.s))
  {
  }

  /**
    With a usable question, a missing or non-array `options`, or fewer than two
    raw entries, is answered 400 "At least 2 options are required".
   */
  lemma OptionsRequiredExactly(question: Json, options: Json, expiresIn: Json, nowMs: int, pollId: string)
    requires question.Str? && !IsBlank(question.s)
    ensures Refused(Create(question, options, expiresIn, nowMs, pollId), 400, "At least 2 options are required")
            <==> !options.Arr? || |options.items| < 2
  {
  }

  /**
    Past the shape checks, the request is answered 400 "At least 2 valid
    options are required" exactly when fewer than two entries survive the
    filter, however many raw entries there were.
   */
  lemma ValidOptionsRequiredExactly(question: Json, items: seq<Json>, expiresIn: Json, nowMs: int, pollId: string)
    requires question.Str? && !IsBlank(question.s) && |items| >= 2
    requires ValidOptions(items).Success?
    ensures Refused(Create(question, Arr(items), expiresIn, nowMs, pollId), 400, "At least 2 valid options are required")
            <==> |ValidOptions(items).value| < 2
  {
  }

  /**
    The handler answers 500 "Failed to create poll" exactly when `.trim()` is
    called on something that is not a string (a truthy non-string question,
    or, once the question and the array shape pass, a truthy non-string option
    entry), or when a valid request asks for an expiry beyond the Date range.
   */
  lemma InternalErrorExactly(question: Json, options: Json, expiresIn: Json, nowMs: int, pollId: string)
    ensures Refused(Create(question, options, expiresIn, nowMs, pollId), 500, "Failed to create poll")
            <==> || ThrowsOnTrim(question)
                 || (&& question.Str? && !IsBlank(question.s) && options.Arr? && |options.items| >= 2
                     && exists i :: 0 <= i < |options.items| && ThrowsOnTrim(options.items[i]))
                 || (&& question.Str? && !IsBlank(question.s) && options.Arr? && |options.items| >= 2
                     && ValidOptions(options.items).Success? && |ValidOptions(options.items).value| >= 2
                     && !StorableExpiry(expiresIn, nowMs))
  {
  }

  /**
    Every failure is decided before the database assigns a poll id, and every
    400 refusal also before the clock is read: it is the same at any time.
   */
  lemma RefusalIndependentOfDatabase(question: Json, options: Json, expiresIn: Json, nowMs: int, pollId: string,
                                     nowMs': int, pollId': string)
    requires Create(question, options, expiresIn, nowMs, pollId).Failure?
    ensures Create(question, options, expiresIn, nowMs, pollId') == Create(question, options, expiresIn, nowMs, pollId)
    ensures Status(Create(question, options, expiresIn, nowMs, pollId).error) == 400 ==>
              Create(question, options, expiresIn, nowMs', pollId') == Create(question, options, expiresIn, nowMs, pollId)
  {
  }

  /**
    Once every validation passes, the request fails only on an expiry that
    cannot be stored; otherwise the poll holds the trimmed question, the
    expiry and the surviving options numbered in order.
   */
  lemma CreateValidated(question: string, items: seq<Json>, expiresIn: Json, nowMs: int, pollId: string)
    requires !IsBlank(question) && |items| >= 2
    requires ValidOptions(items).Success? && |ValidOptions(items).value| >= 2
    ensures var r := Create(Str(question), Arr(items), expiresIn, nowMs, pollId);
            && (r.Success? <==> StorableExpiry(expiresIn, nowMs))
            && (r.Failure? ==> r.error == InternalError)
            && (r.Success? ==> r.value == PollDraft(pollId, Trim(question), ExpiresAt(expiresIn, nowMs),
                                                    NumberOptions(ValidOptions(items).value, pollId)))
  {
    assert question != [];
    var rows := NumberOptions(ValidOptions(items).value, pollId);
    NumberedSorted(ValidOptions(items).value, pollId);
    SortSortedUnchanged(rows);
  }

  /** A created poll stores the trimmed question and, when `expiresIn` is a positive number, expires that many seconds after `nowMs`. */
  lemma CreatedQuestionAndExpiry(question: Json, options: Json, expiresIn: Json, nowMs: int, pollId: string)
    requires Create(question, options, expiresIn, nowMs, pollId).Success?
    ensures var p := Create(question, options, expiresIn, nowMs, pollId).value;
            && question.Str? && p.question == Trim(question.s) && p.question != [] && !IsBlank(p.question)
            && p.expiresAt == (if expiresIn.Num? && expiresIn.n > 0 then Some(nowMs + expiresIn.n * 1000) else None)
            && (p.expiresAt.Some? ==> InDateRange(p.expiresAt.value))
  {
    TrimNotBlank(question.s);
  }

  /**
    A created poll has one row per surviving option: row `i` has position `i`,
    the trimmed `i`-th surviving text and the new poll's id. Positions are
    therefore distinct and the rows come back in the order the options were given.
   */
  lemma {:induction false} CreatedOptions(question: Json, items: seq<Json>, expiresIn: Json, nowMs: int, pollId: string)
    requires Create(question, Arr(items), expiresIn, nowMs, pollId).Success?
    ensures ValidOptions(items).Success?
    ensures var p := Create(question, Arr(items), expiresIn, nowMs, pollId).value;
            && |p.options| == |ValidOptions(items).value|
            && forall i :: 0 <= i < |p.options| ==>
                 p.options[i] == OptionRow(Trim(ValidOptions(items).value[i]), i, pollId)
  {
    var valid := ValidOptions(items).value;
    var rows := NumberOptions(valid, pollId);
    NumberedSorted(valid, pollId);
    SortSortedUnchanged(rows);
    assert Create(question, Arr(items), expiresIn, nowMs, pollId).value.options == rows;
  }

  /** No two options of a created poll share a position. */
  lemma CreatedPositionsDistinct(question: Json, items: seq<Json>, expiresIn: Json, nowMs: int, pollId: string)
    requires Create(question, Arr(items), expiresIn, nowMs, pollId).Success?
    ensures var p := Create(question, Arr(items), expiresIn, nowMs, pollId).value;
            forall i, j :: 0 <= i < j < |p.options| ==> p.options[i].position < p.options[j].position
  {
    CreatedOptions(question, items, expiresIn, nowMs, pollId);
  }
}
