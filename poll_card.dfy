/**
  The poll card's display logic: whether a poll is expired, how long ago it
  was created ("N units ago"), and which labels the card shows. Times are
  integer milliseconds; the current time is a parameter.
 */
module PollCard {
  import opened Wrappers
  import opened JsText
  import CreatePoll

  /** `expiresAt && new Date(expiresAt) < new Date()`: strictly before now; a poll without expiry never expires. */
  predicate IsExpired(expiresAt: Option<int>, nowMs: int): (expired: bool)
    ensures expiresAt.None? ==> !expired
    ensures expiresAt.Some? ==> (expired <==> nowMs > expiresAt.value)
  {
    expiresAt.Some? && expiresAt.value < nowMs
  }

  /** Once expired, a poll stays expired as the clock moves forward. */
  lemma ExpiredStaysExpired(expiresAt: Option<int>, nowMs: int, laterMs: int)
    requires IsExpired(expiresAt, nowMs) && nowMs <= laterMs
    ensures IsExpired(expiresAt, laterMs)
  {
  }

  /** At the exact expiry instant the poll is still open; one millisecond later it is expired. */
  lemma ExpiryBoundary(expiresAtMs: int)
    ensures !IsExpired(Some(expiresAtMs), expiresAtMs)
    ensures IsExpired(Some(expiresAtMs), expiresAtMs + 1)
  {
  }

  /**
    A poll created at `nowMs` with a positive `expiresIn` shows as expired
    exactly after `expiresIn` seconds have passed, and never otherwise.
   */
  lemma CreatedPollExpiry(question: CreatePoll.Json, options: CreatePoll.Json, expiresIn: CreatePoll.Json,
                          nowMs: int, pollId: string, laterMs: int)
    requires CreatePoll.Create(question, options, expiresIn, nowMs, pollId).Success?
    ensures var p := CreatePoll.Create(question, options, expiresIn, nowMs, pollId).value;
            IsExpired(p.expiresAt, laterMs) <==> expiresIn.Num? && expiresIn.n > 0 && laterMs > nowMs + expiresIn.n * 1000
  {
    CreatePoll.CreatedQuestionAndExpiry(question, options, expiresIn, nowMs, pollId);
  }

  /** `Math.floor((now - created) / 1000)`: the whole seconds elapsed, rounded down also when negative. */
  function ElapsedSeconds(nowMs: int, createdMs: int): (seconds: int)
    ensures seconds * 1000 <= nowMs - createdMs < (seconds + 1) * 1000
  {
    (nowMs - createdMs) / 1000
  }

  datatype TimeUnit = Years | Months | Days | Hours | Minutes | Seconds

  /** The divisor `formatTimeAgo` uses for each unit (a year is 365 days, a month 30). */
  function UnitSeconds(u: TimeUnit): (n: nat)
    ensures n >= 1
  {
    match u
    case Years => 31536000
    case Months => 2592000
    case Days => 86400
    case Hours => 3600
    case Minutes => 60
    case Seconds => 1
  }

  function UnitWord(u: TimeUnit): string {
    match u
    case Years => "years"
    case Months => "months"
    case Days => "days"
    case Hours => "hours"
    case Minutes => "minutes"
    case Seconds => "seconds"
  }

  /** How many of which unit `formatTimeAgo` reports. */
  datatype Elapsed = Elapsed(amount: int, unit: TimeUnit)

  /**
    The threshold cascade of `formatTimeAgo`: `seconds / N > 1` holds exactly
    when `seconds > N`, so the unit is the largest one (other than seconds)
    that `seconds` strictly exceeds, and the amount is `seconds` divided by it,
    rounded down.
   */
  function TimeAgo(seconds: int): (e: Elapsed)
    ensures e.unit != Seconds ==> seconds > UnitSeconds(e.unit) && e.amount >= 1
    ensures forall u :: u != Seconds && UnitSeconds(u) > UnitSeconds(e.unit) ==> seconds <= UnitSeconds(u)
    ensures e.amount == seconds / UnitSeconds(e.unit)
  {
    if seconds > 31536000 then Elapsed(seconds / 31536000, Years)
    else if seconds > 2592000 then Elapsed(seconds / 2592000, Months)
    else if seconds > 86400 then Elapsed(seconds / 86400, Days)
    else if seconds > 3600 then Elapsed(seconds / 3600, Hours)
    else if seconds > 60 then Elapsed(seconds / 60, Minutes)
    else Elapsed(seconds, Seconds)
  }

  /**
    Below years, the amount never exceeds the count of that unit in the next
    larger one: at most 12 months, 30 days, 24 hours, 60 minutes or 60 seconds.
   */
  lemma TimeAgoBounded(seconds: int)
    ensures var e := TimeAgo(seconds);
            && (e.unit == Months ==> e.amount <= 12)
            && (e.unit == Days ==> e.amount <= 30)
            && (e.unit == Hours ==> e.amount <= 24)
            && (e.unit == Minutes ==> e.amount <= 60)
            && (e.unit == Seconds ==> e.amount <= 60)
  {
    var e := TimeAgo(seconds);
    if e.unit == Months {
      assert seconds <= 31536000;
      assert seconds / 2592000 <= 31536000 / 2592000;
    } else if e.unit == Days {
      assert seconds / 86400 <= 2592000 / 86400;
    } else if e.unit == Hours {
      assert seconds / 3600 <= 86400 / 3600;
    } else if e.unit == Minutes {
      assert seconds / 60 <= 3600 / 60;
    }
  }

  /** Exactly at a threshold the next smaller unit is used: 3600 seconds is 60 minutes, 3601 is 1 hour. */
  lemma TimeAgoAtThreshold()
    ensures TimeAgo(3600) == Elapsed(60, Minutes)
    ensures TimeAgo(3601) == Elapsed(1, Hours)
    ensures TimeAgo(60) == Elapsed(60, Seconds)
    ensures FormatTimeAgo(3600) == "60 minutes ago"
  {
    assert NatToDecimal(60) == NatToDecimal(6) + [DigitChar(0)] == "60";
  }

  /** The words after the number in the caption. */
  function Suffix(u: TimeUnit): string {
    " " + UnitWord(u) + " ago"
  }

  /** The caption: `${Math.floor(interval)} <unit> ago`; the number before the suffix reads back as the amount. */
  function FormatTimeAgo(seconds: int): (text: string)
    ensures var e := TimeAgo(seconds); var n := |text| - |Suffix(e.unit)|;
            && 0 < n < |text| && text[n..] == Suffix(e.unit)
            && IsIntText(text[..n]) && IntValue(text[..n]) == e.amount
            && text[..n] == IntToDecimal(e.amount)
  {
    var e := TimeAgo(seconds);
    var digits := IntToDecimal(e.amount);
    IntRoundTrip(e.amount);
    var text := digits + Suffix(e.unit);
    assert text[..|digits|] == digits && text[|digits|..] == Suffix(e.unit);
    text
  }

  /** `votesCount !== undefined ? `${votesCount} Votes` : 'Vote Now'`. */
  function VoteLabel(votesCount: Option<int>): (caption: string)
    ensures votesCount.None? ==> caption == "Vote Now"
    ensures votesCount.Some? ==> |caption| > 6 && caption[|caption| - 6..] == " Votes"
                                 && IsIntText(caption[..|caption| - 6])
                                 && IntValue(caption[..|caption| - 6]) == votesCount.value
                                 && caption[..|caption| - 6] == IntToDecimal(votesCount.value)
  {
    match votesCount
    case None => "Vote Now"
    case Some(n) =>
      var digits := IntToDecimal(n);
      IntRoundTrip(n);
      var caption := digits + " Votes";
      assert caption[..|digits|] == digits;
      caption
  }

  /** What the card shows besides its question. */
  datatype CardLabels = CardLabels(expiredBadge: bool, timeAgo: string, votes: string, button: string, buttonVariant: string)

  /**
    The card for a poll created at `createdMs`: the "Expired" badge, the
    "View Results" button and the secondary button style appear together,
    exactly when the poll is expired; otherwise the button reads "Vote".
   */
  function Card(createdMs: int, expiresAt: Option<int>, votesCount: Option<int>, nowMs: int): (c: CardLabels)
    ensures c.expiredBadge <==> IsExpired(expiresAt, nowMs)
    ensures c.button == "View Results" <==> c.expiredBadge
    ensures c.buttonVariant == "secondary" <==> c.expiredBadge
    ensures !c.expiredBadge ==> c.button == "Vote" && c.buttonVariant == "default"
    ensures c.timeAgo == FormatTimeAgo(ElapsedSeconds(nowMs, createdMs))
    ensures c.votes == VoteLabel(votesCount)
  {
    var expired := IsExpired(expiresAt, nowMs);
    CardLabels(
      expired,
      FormatTimeAgo(ElapsedSeconds(nowMs, createdMs)),
      VoteLabel(votesCount),
      if expired then "View Results" else "Vote",
      if expired then "secondary" else "default")
  }
}
