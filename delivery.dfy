/**
 * The delivery engine of `SendAdToTg`: the media group built for a listing
 * (`__send_to_tg`, first half), the bounded retry loop that posts it to the
 * Bot API's `sendMediaGroup` method (`__send_to_tg`, second half), and the
 * loop over every configured chat (`send_to_tg`).
 *
 * The network is a parameter: `respond(k)` is what attempt `k` (counting
 * from 1) gets back, either an HTTP status or a network failure. Sleeping is
 * counted, not performed, and logging is left out.
 */
module Delivery {
  import opened Outcomes
  import opened Text
  import opened Images
  import opened Caption

  /** A chat identifier: the source accepts a string or an integer. */
  datatype ChatId = ChatName(name: string) | ChatNumber(number: int)

  /** One photo of the media group; only the first carries a caption and a parse mode. */
  datatype MediaItem = Photo(media: string, caption: Option<string>, parseMode: Option<string>)

  /** What one attempt gets back: a response with its status code, or a network-level failure. */
  datatype Answer = Response(status: int) | NetworkError

  /** How the loop treats an answer. */
  datatype Kind = Delivered | Rejected | Transient

  /** How one destination ended: sent, rejected with 400, or out of attempts. */
  datatype Verdict = Success | PermanentFailure | Exhausted

  datatype Report = Report(verdict: Verdict, attempts: nat, sleeps: nat)

  /** The body posted on every attempt: endpoint, chat and media items. */
  datatype Request = Request(url: string, chatId: ChatId, media: seq<MediaItem>)

  /** What happened for one chat: the report and the requests posted, in order. */
  datatype ChatDelivery = ChatDelivery(chatId: ChatId, report: Report, sent: seq<Request>)

  /** The sender's configuration, fixed at construction. */
  datatype Sender = Sender(botToken: string, chatIds: seq<ChatId>, maxRetries: int, retryDelay: int)
  {
    /** The endpoint every request goes to. */
    function MediaGroupUrl(): string {
      "https://api.telegram.org/bot" + botToken + "/sendMediaGroup"
    }
  }

  const DefaultMaxRetries: int := 5
  const DefaultRetryDelay: int := 5
  const MaxMediaItems: nat := 10
  const CaptionLimit: nat := 1000
  const ParseMode: string := "MarkdownV2"
  /** The image sent when the listing has none. */
  const Placeholder: string := "https://i.ibb.co/rG7MgdfF/1887013-middle.png"

  /** `requests`' `raise_for_status` raises for every 4xx and 5xx status. */
  predicate RaisesForStatus(status: int) {
    400 <= status < 600
  }

  /**
   * A 400 ends the loop as a permanent failure; any other status that
   * `raise_for_status` rejects, and any network failure, is a
   * `RequestException` the loop retries; everything else is success.
   */
  function Classify(a: Answer): (k: Kind)
    ensures k == Rejected <==> a == Response(400)
    ensures k == Delivered <==> a.Response? && !(400 <= a.status < 600)
  {
    match a
    case NetworkError => Transient
    case Response(status) =>
      if status == 400 then Rejected
      else if RaisesForStatus(status) then Transient
      else Delivered
  }

  /**
   * The media group: one photo per image URL, at most ten, the placeholder
   * when there are none; the first photo carries the caption, cut to 1000
   * characters, and the MarkdownV2 parse mode.
   */
  function MediaGroup(images: seq<string>, message: string): (group: seq<MediaItem>)
    ensures 1 <= |group| <= MaxMediaItems
    ensures images == [] ==> group == [Photo(Placeholder, Some(Truncate(message, CaptionLimit)), Some(ParseMode))]
    ensures images != [] ==> |group| == (if |images| < MaxMediaItems then |images| else MaxMediaItems)
                             && forall i :: 0 <= i < |group| ==> group[i].media == images[i]
    ensures group[0].caption == Some(Truncate(message, CaptionLimit)) && group[0].parseMode == Some(ParseMode)
    ensures forall i :: 1 <= i < |group| ==> group[i].caption == None && group[i].parseMode == None
  {
    var urls := if images == [] then [Placeholder] else images;
    var n := if |urls| < MaxMediaItems then |urls| else MaxMediaItems;
    var photos := seq(n, i requires 0 <= i < n => Photo(urls[i], None, None));
    photos[0 := photos[0].(caption := Some(Truncate(message, CaptionLimit)), parseMode := Some(ParseMode))]
  }

  /**
   * The first attempt among `from..maxRetries` whose answer stops the loop
   * (a 400 or a success), or 0 when every one of them is transient.
   */
  function FirstStop(respond: nat -> Answer, from: nat, maxRetries: int): (k: nat)
    requires from >= 1
    ensures k == 0 ==> forall j :: from <= j <= maxRetries ==> Classify(respond(j)) == Transient
    ensures k != 0 ==> from <= k <= maxRetries && Classify(respond(k)) != Transient
                       && forall j :: from <= j < k ==> Classify(respond(j)) == Transient
    decreases maxRetries - from
  {
    if from > maxRetries then 0
    else if Classify(respond(from)) != Transient then from
    else FirstStop(respond, from + 1, maxRetries)
  }

  /**
   * The outcome the retry loop must reach: it stops at the first attempt
   * that is rejected or succeeds, having slept once after every earlier
   * attempt; when no attempt within the budget stops it, it has made all
   * `maxRetries` attempts and slept after all but the last.
   */
  function RetryOutcome(respond: nat -> Answer, maxRetries: int): Report {
    var k := FirstStop(respond, 1, maxRetries);
    if k == 0 then
      Report(Exhausted, if maxRetries > 0 then maxRetries else 0, if maxRetries > 1 then maxRetries - 1 else 0)
    else
      Report(if Classify(respond(k)) == Rejected then PermanentFailure else Success, k, k - 1)
  }

  /**
   * The retry loop of `__send_to_tg`: posts `request` up to `maxRetries`
   * times, stops on a 400 or a success, and sleeps after every other failure
   * except the last. No failure escapes: the outcome is returned.
   */
  method Deliver(request: Request, maxRetries: int, respond: nat -> Answer) returns (report: Report, sent: seq<Request>)
    ensures report == RetryOutcome(respond, maxRetries)
    ensures |sent| == report.attempts && forall i :: 0 <= i < |sent| ==> sent[i] == request
  {
    sent := [];
    var sleeps := 0;
    var verdict := Exhausted;
    var attempt := 1;
    while attempt <= maxRetries
      invariant 1 <= attempt && (attempt <= maxRetries + 1 || attempt == 1)
      invariant forall j :: 1 <= j < attempt ==> Classify(respond(j)) == Transient
      invariant |sent| == attempt - 1 && forall i :: 0 <= i < |sent| ==> sent[i] == request
      invariant sleeps == if attempt <= maxRetries then attempt - 1 else (if maxRetries > 1 then maxRetries - 1 else 0)
      invariant verdict == Exhausted
    {
      sent := sent + [request];
      var answer := respond(attempt);
      if answer == Response(400) {
        verdict := PermanentFailure;
        break;
      }
      if answer.Response? && !RaisesForStatus(answer.status) {
        verdict := Success;
        break;
      }
      // a RequestException: sleep unless this was the last attempt
      if attempt < maxRetries {
        sleeps := sleeps + 1;
      }
      attempt := attempt + 1;
    }
    report := Report(verdict, |sent|, sleeps);
  }

  /** At most `maxRetries` attempts, and exactly one sleep between two attempts. */
  lemma RetryBounded(respond: nat -> Answer, maxRetries: int)
    ensures var r := RetryOutcome(respond, maxRetries);
            && r.attempts <= (if maxRetries > 0 then maxRetries else 0)
            && r.sleeps == (if r.attempts > 0 then r.attempts - 1 else 0)
            && (r.verdict != Exhausted ==> r.attempts >= 1)
  {
  }

  /** `FirstStop` is the earliest stopping attempt: any attempt that stops after transient ones is it. */
  lemma FirstStopIs(respond: nat -> Answer, maxRetries: int, k: nat)
    requires 1 <= k <= maxRetries
    requires Classify(respond(k)) != Transient
    requires forall j :: 1 <= j < k ==> Classify(respond(j)) == Transient
    ensures FirstStop(respond, 1, maxRetries) == k
  {
    var f := FirstStop(respond, 1, maxRetries);
    assert f != 0 ==> Classify(respond(f)) != Transient;
  }

  /**
   * A 400 on attempt `k`, after transient failures only, ends the loop there:
   * exactly `k` attempts, and no sleep after the last.
   */
  lemma RetryStopsOnRejection(respond: nat -> Answer, maxRetries: int, k: nat)
    requires 1 <= k <= maxRetries
    requires respond(k) == Response(400)
    requires forall j :: 1 <= j < k ==> Classify(respond(j)) == Transient
    ensures RetryOutcome(respond, maxRetries) == Report(PermanentFailure, k, k - 1)
  {
    FirstStopIs(respond, maxRetries, k);
  }

  /** A success on attempt `k`, after transient failures only, ends the loop there. */
  lemma RetryStopsOnSuccess(respond: nat -> Answer, maxRetries: int, k: nat)
    requires 1 <= k <= maxRetries
    requires Classify(respond(k)) == Delivered
    requires forall j :: 1 <= j < k ==> Classify(respond(j)) == Transient
    ensures RetryOutcome(respond, maxRetries) == Report(Success, k, k - 1)
  {
    FirstStopIs(respond, maxRetries, k);
  }

  /** When every attempt fails transiently, all `maxRetries` are made, with a sleep between each two. */
  lemma RetryAllTransient(respond: nat -> Answer, maxRetries: int)
    requires maxRetries >= 1
    requires forall j :: 1 <= j <= maxRetries ==> Classify(respond(j)) == Transient
    ensures RetryOutcome(respond, maxRetries) == Report(Exhausted, maxRetries, maxRetries - 1)
  {
    var f := FirstStop(respond, 1, maxRetries);
    assert f != 0 ==> Classify(respond(f)) == Transient;
  }

  /** The loop succeeds exactly when some attempt within the budget succeeds after transient failures only. */
  lemma RetrySucceedsIff(respond: nat -> Answer, maxRetries: int)
    ensures RetryOutcome(respond, maxRetries).verdict == Success <==>
            exists k :: 1 <= k <= maxRetries && Classify(respond(k)) == Delivered
                        && forall j :: 1 <= j < k ==> Classify(respond(j)) == Transient
  {
    if exists k :: 1 <= k <= maxRetries && Classify(respond(k)) == Delivered
                   && forall j :: 1 <= j < k ==> Classify(respond(j)) == Transient {
      var k :| 1 <= k <= maxRetries && Classify(respond(k)) == Delivered
               && forall j :: 1 <= j < k ==> Classify(respond(j)) == Transient;
      RetryStopsOnSuccess(respond, maxRetries, k);
    }
  }

  /** The loop fails permanently exactly when some attempt within the budget gets a 400 after transient failures only. */
  lemma RetryRejectedIff(respond: nat -> Answer, maxRetries: int)
    ensures RetryOutcome(respond, maxRetries).verdict == PermanentFailure <==>
            exists k :: 1 <= k <= maxRetries && respond(k) == Response(400)
                        && forall j :: 1 <= j < k ==> Classify(respond(j)) == Transient
  {
    if exists k :: 1 <= k <= maxRetries && respond(k) == Response(400)
                   && forall j :: 1 <= j < k ==> Classify(respond(j)) == Transient {
      var k :| 1 <= k <= maxRetries && respond(k) == Response(400)
               && forall j :: 1 <= j < k ==> Classify(respond(j)) == Transient;
      RetryStopsOnRejection(respond, maxRetries, k);
    }
  }

  lemma {:induction false} FirstStopAgree(r1: nat -> Answer, r2: nat -> Answer, from: nat, maxRetries: int)
    requires from >= 1
    requires forall k :: from <= k <= maxRetries ==> r1(k) == r2(k)
    ensures FirstStop(r1, from, maxRetries) == FirstStop(r2, from, maxRetries)
    decreases maxRetries - from
  {
    if from <= maxRetries && Classify(r1(from)) == Transient {
      FirstStopAgree(r1, r2, from + 1, maxRetries);
    }
  }

  /** The outcome depends only on the answers to attempts `1..maxRetries`. */
  lemma RetryDependsOnBudgetOnly(r1: nat -> Answer, r2: nat -> Answer, maxRetries: int)
    requires forall k :: 1 <= k <= maxRetries ==> r1(k) == r2(k)
    ensures RetryOutcome(r1, maxRetries) == RetryOutcome(r2, maxRetries)
  {
    FirstStopAgree(r1, r2, 1, maxRetries);
  }

  /** Three network failures in a row with a budget of three: three attempts, two sleeps. */
  lemma RetryExhaustedExample(respond: nat -> Answer)
    requires forall k :: respond(k) == NetworkError
    ensures RetryOutcome(respond, 3) == Report(Exhausted, 3, 2)
  {
    RetryAllTransient(respond, 3);
  }

  /** A 400 on the first attempt: one attempt, no sleep. */
  lemma RetryRejectedFirstExample(respond: nat -> Answer)
    requires respond(1) == Response(400)
    ensures RetryOutcome(respond, DefaultMaxRetries) == Report(PermanentFailure, 1, 0)
  {
    RetryStopsOnRejection(respond, DefaultMaxRetries, 1);
  }

  /** The request `__send_to_tg` posts to one chat, or the error its image selection raises. */
  function Payload(sender: Sender, chatId: ChatId, ad: Listing): (r: Result<Request, SelectError>)
    ensures r.Err? <==> GetImages(ad.images).Err?
    ensures r.Err? ==> r.error == GetImages(ad.images).error
    ensures r.Ok? ==> && r.value.url == "https://api.telegram.org/bot" + sender.botToken + "/sendMediaGroup"
                      && r.value.chatId == chatId
                      && 1 <= |r.value.media| <= MaxMediaItems
                      && r.value.media[0].caption == Some(Truncate(FormatAd(ad), CaptionLimit))
  {
    match GetImages(ad.images)
    case Err(e) => Err(e)
    case Ok(urls) => Ok(Request(sender.MediaGroupUrl(), chatId, MediaGroup(urls, FormatAd(ad))))
  }

  /**
   * `__send_to_tg`: composes the caption and the media group once, then
   * runs the retry loop with the same request on every attempt. A photo
   * without variants raises before anything is sent.
   */
  method SendToChat(sender: Sender, chatId: ChatId, ad: Listing, respond: nat -> Answer)
    returns (r: Result<ChatDelivery, SelectError>)
    ensures r.Err? <==> GetImages(ad.images).Err?
    ensures r.Err? ==> r.error == GetImages(ad.images).error
    ensures r.Ok? ==> && r.value.chatId == chatId
                      && r.value.report == RetryOutcome(respond, sender.maxRetries)
                      && |r.value.sent| == r.value.report.attempts
                      && forall i :: 0 <= i < |r.value.sent| ==> Ok(r.value.sent[i]) == Payload(sender, chatId, ad)
  {
    var message := FormatAd(ad);
    var images := GetImages(ad.images);
    if images.Err? {
      return Err(images.error);
    }
    var group := MediaGroup(images.value, message);
    var request := Request(sender.MediaGroupUrl(), chatId, group);
    var report, sent := Deliver(request, sender.maxRetries, respond);
    r := Ok(ChatDelivery(chatId, report, sent));
  }

  /** Delivery `d` is what the routine produces for chat `chatId` when the network answers with `respond`. */
  ghost predicate DeliveredTo(d: ChatDelivery, sender: Sender, chatId: ChatId, ad: Listing, respond: nat -> Answer) {
    && d.chatId == chatId
    && d.report == RetryOutcome(respond, sender.maxRetries)
    && |d.sent| == d.report.attempts
    && forall i :: 0 <= i < |d.sent| ==> Ok(d.sent[i]) == Payload(sender, chatId, ad)
  }

  /**
   * `send_to_tg`: runs the routine for every configured chat, in order. The
   * network's answers for the chat at position `i` are `respond(i)`, so what
   * happens to one chat depends on nothing that happened to another; only
   * the image selection error, raised on the first chat, stops the loop.
   */
  method SendToAll(sender: Sender, ad: Listing, respond: nat -> nat -> Answer)
    returns (deliveries: seq<ChatDelivery>, failure: Option<SelectError>)
    ensures failure.Some? <==> sender.chatIds != [] && GetImages(ad.images).Err?
    ensures failure.Some? ==> deliveries == [] && failure.value == GetImages(ad.images).error
    ensures failure.None? ==> |deliveries| == |sender.chatIds|
    ensures failure.None? ==> forall i :: 0 <= i < |deliveries| ==>
              DeliveredTo(deliveries[i], sender, sender.chatIds[i], ad, respond(i))
  {
    deliveries := [];
    failure := None;
    var i := 0;
    while i < |sender.chatIds|
      invariant 0 <= i <= |sender.chatIds| && |deliveries| == i
      invariant i > 0 ==> GetImages(ad.images).Ok?
      invariant forall j :: 0 <= j < i ==> DeliveredTo(deliveries[j], sender, sender.chatIds[j], ad, respond(j))
    {
      var r := SendToChat(sender, sender.chatIds[i], ad, respond(i));
      if r.Err? {
        failure := Some(r.error);
        return;
      }
      deliveries := deliveries + [r.value];
      i := i + 1;
    }
  }
}
