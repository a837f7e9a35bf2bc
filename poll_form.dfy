/**
  The poll creation form: its state (question, option list, expiry choice,
  whether a request is in flight), the handlers that edit the option list,
  and the submit-time validation that decides whether a request is sent and
  what it carries.
 */
module PollForm {
  import opened Wrappers
  import opened JsText
  import CreatePoll

  /** The values the expiry `<select>` offers, in seconds as text; "0" is never. */
  const ExpiryChoices: set<string> := {"0", "3600", "86400", "604800"}

  /** `parseInt` of an expiry choice: the number of seconds the choice spells. */
  function ExpirySeconds(choice: string): (seconds: nat)
    requires choice in ExpiryChoices
    ensures choice == "0" ==> seconds == 0
    ensures choice == "3600" ==> seconds == 3600
    ensures choice == "86400" ==> seconds == 86400
    ensures choice == "604800" ==> seconds == 604800
  {
    ChoiceValues();
    DecimalValue(choice)
  }

  lemma ChoiceValues()
    ensures forall c :: c in ExpiryChoices ==> AllDigits(c)
    ensures DecimalValue("0") == 0 && DecimalValue("3600") == 3600
    ensures DecimalValue("86400") == 86400 && DecimalValue("604800") == 604800
  {
    assert "3600"[..3] == "360" && "360"[..2] == "36" && "36"[..1] == "3" && "3"[..0] == "";
    assert "86400"[..4] == "8640" && "8640"[..3] == "864" && "864"[..2] == "86" && "86"[..1] == "8" && "8"[..0] == "";
    assert "604800"[..5] == "60480" && "60480"[..4] == "6048" && "6048"[..3] == "604"
           && "604"[..2] == "60" && "60"[..1] == "6" && "6"[..0] == "";
    assert "0"[..0] == "";
  }

  /** The JSON body `handleSubmit` posts: the question as typed, the non-blank options, the expiry in seconds. */
  datatype Payload = Payload(question: string, options: seq<string>, expiresIn: int)

  /** A submit either stops with the message the error toast shows, or sends a request. */
  datatype Submission = Rejected(message: string) | Sent(payload: Payload)

  /**
    The validation part of `handleSubmit`: a blank question stops it first,
    then fewer than two non-blank options; otherwise the request carries the
    question untrimmed, exactly the non-blank options in order, and the expiry.
   */
  function CheckSubmission(question: string, options: seq<string>, expiresIn: int): (s: Submission)
    ensures s.Sent? <==> !IsBlank(question) && |NonBlank(options)| >= 2
    ensures IsBlank(question) ==> s == Rejected("Please enter a question")
    ensures !IsBlank(question) && |NonBlank(options)| < 2 ==> s == Rejected("Please provide at least 2 options")
    ensures s.Sent? ==> s.payload.question == question && s.payload.expiresIn == expiresIn
    ensures s.Sent? ==> |s.payload.options| >= 2 && s.payload.options == NonBlank(options)
  {
    if IsBlank(question) then Rejected("Please enter a question")
    else
      var valid := NonBlank(options);
      if |valid| < 2 then Rejected("Please provide at least 2 options")
      else Sent(Payload(question, valid, expiresIn))
  }

  /**
    Every request the form sends passes the server's checks: unless the
    expiry falls outside the Date range, the server creates a poll with the
    trimmed question, one option per sent option (trimmed, numbered from 0 in
    the order sent), and the chosen expiry; otherwise it answers 500.
   */
  lemma {:induction false} SentPayloadAccepted(question: string, options: seq<string>, expiresIn: int, nowMs: int, pollId: string)
    requires CheckSubmission(question, options, expiresIn).Sent?
    ensures var p := CheckSubmission(question, options, expiresIn).payload;
            var r := CreatePoll.Create(CreatePoll.Str(p.question), CreatePoll.Arr(CreatePoll.Strings(p.options)),
                                       CreatePoll.Num(p.expiresIn), nowMs, pollId);
            && (r.Success? <==> CreatePoll.StorableExpiry(CreatePoll.Num(expiresIn), nowMs))
            && (r.Failure? ==> r.error == CreatePoll.InternalError)
            && (r.Success? ==>
                  && r.value.question == Trim(question)
                  && r.value.expiresAt == (if expiresIn > 0 then Some(nowMs + expiresIn * 1000) else None)
                  && |r.value.options| == |p.options|
                  && forall i :: 0 <= i < |p.options| ==> r.value.options[i] == CreatePoll.OptionRow(Trim(p.options[i]), i, pollId))
  {
    var p := CheckSubmission(question, options, expiresIn).payload;
    assert p == Payload(question, NonBlank(options), expiresIn);
    PayloadAccepted(p, nowMs, pollId);
    var e := CreatePoll.Num(expiresIn);
    var r := CreatePoll.Create(CreatePoll.Str(question), CreatePoll.Arr(CreatePoll.Strings(p.options)), e, nowMs, pollId);
    if r.Success? {
      var rows := CreatePoll.NumberOptions(p.options, pollId);
      assert r.value == CreatePoll.PollDraft(pollId, Trim(question), CreatePoll.ExpiresAt(e, nowMs), rows);
      assert r.value.expiresAt == (if expiresIn > 0 then Some(nowMs + expiresIn * 1000) else None);
      assert forall i :: 0 <= i < |p.options| ==> r.value.options[i] == rows[i];
    }
  }

  /**
    The server side of `SentPayloadAccepted`: a body whose question is not
    blank and whose options are at least two non-blank strings passes every
    validation; only an expiry beyond the Date range can still fail it, and
    otherwise the poll holds the trimmed question, the expiry and the options
    numbered in the order sent.
   */
  lemma PayloadAccepted(p: Payload, nowMs: int, pollId: string)
    requires !IsBlank(p.question) && |p.options| >= 2
    requires forall i :: 0 <= i < |p.options| ==> !IsBlank(p.options[i])
    ensures var e := CreatePoll.Num(p.expiresIn);
            CreatePoll.Create(CreatePoll.Str(p.question), CreatePoll.Arr(CreatePoll.Strings(p.options)), e, nowMs, pollId)
            == if CreatePoll.StorableExpiry(e, nowMs)
               then Success(CreatePoll.PollDraft(pollId, Trim(p.question), CreatePoll.ExpiresAt(e, nowMs),
                                                 CreatePoll.NumberOptions(p.options, pollId)))
               else Failure(CreatePoll.InternalError)
  {
    var items := CreatePoll.Strings(p.options);
    assert CreatePoll.ValidOptions(items) == Success(p.options) by {
      CreatePoll.ValidOptionsOfStrings(p.options);
      NonBlankUnchanged(p.options);
    }
    CreatePoll.CreateValidated(p.question, items, CreatePoll.Num(p.expiresIn), nowMs, pollId);
  }

  /** `JSON.stringify` of the payload, as the server parses it back: an object with the three fields. */
  function Body(p: Payload): (b: CreatePoll.Json)
    ensures b.Obj?
    ensures CreatePoll.Field(b, "question") == CreatePoll.Str(p.question)
    ensures CreatePoll.Field(b, "options") == CreatePoll.Arr(CreatePoll.Strings(p.options))
    ensures CreatePoll.Field(b, "expiresIn") == CreatePoll.Num(p.expiresIn)
  {
    CreatePoll.Obj(map["question" := CreatePoll.Str(p.question),
                       "options" := CreatePoll.Arr(CreatePoll.Strings(p.options)),
                       "expiresIn" := CreatePoll.Num(p.expiresIn)])
  }

  /**
    The request body the form posts, read by the handler from the top: it is
    answered exactly as `PayloadAccepted` says.
   */
  lemma BodyAccepted(p: Payload, nowMs: int, pollId: string)
    requires !IsBlank(p.question) && |p.options| >= 2
    requires forall i :: 0 <= i < |p.options| ==> !IsBlank(p.options[i])
    ensures var e := CreatePoll.Num(p.expiresIn);
            CreatePoll.Post(Some(Body(p)), nowMs, pollId)
            == if CreatePoll.StorableExpiry(e, nowMs)
               then Success(CreatePoll.PollDraft(pollId, Trim(p.question), CreatePoll.ExpiresAt(e, nowMs),
                                                 CreatePoll.NumberOptions(p.options, pollId)))
               else Failure(CreatePoll.InternalError)
  {
    PayloadAccepted(p, nowMs, pollId);
  }

  /**
    Every expiry the select offers is a valid Date for any clock reading from
    1970 up to a week before the end of the Date range, so with such a clock
    every request the form sends creates a poll.
   */
  lemma ChoiceStorable(choice: string, nowMs: int)
    requires choice in ExpiryChoices
    requires 0 <= nowMs <= CreatePoll.MaxTimeMs - 604800 * 1000
    ensures CreatePoll.StorableExpiry(CreatePoll.Num(ExpirySeconds(choice)), nowMs)
  {
  }

  /** The form component's state, which its handlers replace. */
  class Form {
    var question: string
    var options: seq<string>
    var expiresIn: string
    var isCreating: bool

    /** The option list never has fewer than two entries, and the expiry is one the select offers. */
    ghost predicate Valid()
      reads this
    {
      |options| >= 2 && expiresIn in ExpiryChoices
    }

    /** `useState('')`, `useState(['', ''])`, `useState('0')`, `useState(false)`. */
    constructor ()
      ensures Valid()
      ensures question == "" && options == ["", ""] && expiresIn == "0" && !isCreating
    {
      question := "";
      options := ["", ""];
      expiresIn := "0";
      isCreating := false;
    }

    method SetQuestion(value: string)
      modifies this`question
      ensures question == value
    {
      question := value;
    }

    method SetExpiresIn(value: string)
      requires value in ExpiryChoices
      requires Valid()
      modifies this`expiresIn
      ensures Valid() && expiresIn == value
    {
      expiresIn := value;
    }

    /** `addOption`: one more, empty, entry at the end; the others are kept. */
    method AddOption()
      requires Valid()
      modifies this`options
      ensures Valid()
      ensures |options| == |old(options)| + 1 && options[|options| - 1] == ""
      ensures forall i :: 0 <= i < |old(options)| ==> options[i] == old(options)[i]
    {
      options := options + [""];
    }

    /**
      `removeOption`: while more than two entries remain, drops the entry at
      `index` and keeps the rest in order; otherwise (or for an index that
      names no entry) the list is unchanged.
     */
    method RemoveOption(index: int)
      requires Valid()
      modifies this`options
      ensures Valid()
      ensures |old(options)| <= 2 || index < 0 || index >= |old(options)| ==> options == old(options)
      ensures |old(options)| > 2 && 0 <= index < |old(options)| ==>
                && |options| == |old(options)| - 1
                && (forall i :: 0 <= i < index ==> options[i] == old(options)[i])
                && (forall i :: index <= i < |options| ==> options[i] == old(options)[i + 1])
    {
      if |options| > 2 && 0 <= index < |options| {
        options := options[..index] + options[index + 1..];
      }
    }

    /** `updateOption`: the entry at `index` becomes `value`; the length and every other entry stay. */
    method UpdateOption(index: int, value: string)
      requires Valid()
      requires 0 <= index < |options|
      modifies this`options
      ensures Valid()
      ensures |options| == |old(options)| && options[index] == value
      ensures forall i :: 0 <= i < |options| && i != index ==> options[i] == old(options)[i]
    {
      var newOptions := options;
      newOptions := newOptions[index := value];
      options := newOptions;
    }

    /**
      `handleSubmit` up to the request: validates the current state; when a
      request is sent the form is marked as creating. Nothing else changes.
     */
    method HandleSubmit() returns (s: Submission)
      requires Valid()
      modifies this`isCreating
      ensures s == CheckSubmission(question, options, ExpirySeconds(expiresIn))
      ensures isCreating == (old(isCreating) || s.Sent?)
    {
      s := CheckSubmission(question, options, ExpirySeconds(expiresIn));
      if s.Sent? {
        isCreating := true;
      }
    }

    /** The `finally` of `handleSubmit`, once the request has settled. */
    method FinishSubmit()
      modifies this`isCreating
      ensures !isCreating
    {
      isCreating := false;
    }
  }
}
