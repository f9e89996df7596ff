# Telegram ad sender, modelled in Dafny

This project models the core of `SendAdToTg` (`tg_sender.py`). That class
publishes a classified-ad listing to one or more Telegram chats. Each listing
goes out as a photo album whose first photo carries a MarkdownV2 caption.
The model covers four pieces of logic:

- **Caption escaper** (`escape_markdown`, and its copy `esc` inside
  `format_ad`), module `Markdown`. Falsy text gives `""`. A non-breaking space
  becomes a space. A backslash goes in front of each of
  `` _ [ ] ( ) ~ ` > # + - = | { } . ! ``.
  Telegram's own MarkdownV2 list also has `*` and `\`; the code leaves them
  out, and the model follows the code.
- **Image selector** (`get_images`, `get_first_image`,
  `get_largest_image_url`), module `Images`. Each photo is a mapping from
  "WxH" labels to URLs. The model takes the labels already parsed, as
  `Resolution(width, height)`, and the mapping as its entries in iteration
  order. The entry with the largest width × height wins; on a tie the first
  one wins, as with Python's `max`. A photo with no variants makes `max`
  raise; the model returns `Err(NoVariants(i))` instead.
- **Caption composer** (`format_ad`), module `Caption`, helped by the
  `strip`, slice and `"\n".join` models in module `Text`. There are five
  candidate parts, in a fixed order: title link, description plus a newline,
  price line, seller line, address. Each part is kept only under the same
  condition the code tests, and the kept parts are joined by newlines.
- **Delivery engine** (`__send_to_tg`, `send_to_tg`), module `Delivery`:
  - It builds a media group of 1 to 10 photos. The placeholder image stands
    in when the listing has no images. Only the first photo gets the caption,
    cut to 1000 characters, and `parse_mode = "MarkdownV2"`.
  - A bounded retry loop (`Deliver`, a `while` loop with `break`) posts the
    same request on every attempt.
  - `send_to_tg` runs this routine once per configured chat, in list order
    (`SendToAll`).

The network is an input: `respond(k)` is what attempt `k` gets back, either
`Response(status)` or `NetworkError`. For several chats the input is
`respond(i)(k)`, keyed by the chat's position in the list. Each chat's
outcome is a `Report(verdict, attempts, sleeps)`, where the verdict is
`Success`, `PermanentFailure` or `Exhausted`. `Deliver` is proved equal to
the function `RetryOutcome`, and the lemmas about retries are stated on that
function.

In the listing record, `id` is the text the f-string gives for the source's
id, that is `str(id)`: a missing id is `"None"` and an id of 0 is `"0"`.
Every other field that is absent, `None` or falsy in the source is the empty
string. `price` is the text of `priceDetailed.value`, and `address` is
`geo.formattedAddress`.

## Model

| member | source | states |
|---|---|---|
| Markdown.Escape | tg_sender.py:21-27 | empty (falsy) text escapes to `""`, and only empty text does; the same function stands for `esc` at lines 108-112 |
| Markdown.ReplaceNbsp | tg_sender.py:26 | every U+00A0 becomes a space; every other character stays where it is |
| Markdown.EscapeSpecials | tg_sender.py:27 | the `re.sub` pass; its behaviour is stated by `EscapeLength`, `EscapeSpecialsAppend`, `EscapeSurrounded` and `UnescapeEscape` |
| Markdown.EscapeLength | tg_sender.py:26-27 | output length = input length + number of characters from the escaped set |
| Markdown.EscapeRemovesNbsp | tg_sender.py:26-27 | no non-breaking space is left in the output |
| Markdown.UnescapeEscape | tg_sender.py:26-27 | dropping each backslash that was put before a set character gives back the input with U+00A0 turned into spaces: all other characters are kept, in order |
| Markdown.EscapeSpecialsAppend | tg_sender.py:27 | the substitution works one character at a time: escaping a concatenation is the concatenation of the escapes |
| Markdown.EscapeSurrounded | tg_sender.py:27 | for every set character c, `a c b` escapes to `a \ c b` |
| Markdown.EscapeTwice | tg_sender.py:26-27 | escaping an escaped text adds one more backslash per set character: it grows by that many characters, and removing one layer of backslashes gives back the once-escaped text; so when the text has a set character, escaping twice differs from escaping once |
| Text.StripIsSlice | tg_sender.py:129 | `strip()` returns the slice of the text that starts after its leading whitespace; that slice neither starts nor ends with whitespace, and only whitespace lies outside it |
| Text.StripEmpty | tg_sender.py:136 | `strip()` gives `""` exactly when the text is all whitespace |
| Text.Strip | tg_sender.py:129 | `str.strip()`, used at lines 129 and 136; its behaviour is stated by `StripIsSlice` and `StripEmpty` |
| Text.JoinLines | tg_sender.py:141 | `"\n".join(parts)`; its behaviour is stated by `JoinLinesLength`, `JoinLinesPartAt`, `JoinLinesSnoc` and `JoinLinesFive` |
| Text.JoinLinesSnoc | tg_sender.py:141 | joining one more part puts it after a newline, or alone when it is the only part |
| Text.JoinLinesFive | tg_sender.py:141 | five parts join to the five texts separated by four newlines |
| Text.Truncate | tg_sender.py:42 | `message[:1000]` is a prefix of the message with length min(len, 1000) |
| Text.JoinLinesLength | tg_sender.py:141 | the joined text is the sum of the part lengths plus one newline between each two parts |
| Text.JoinLinesPartAt | tg_sender.py:141 | part i sits at its offset in the joined text, right after a newline unless it is the first |
| Images.LargestFrom | tg_sender.py:76-79 | the scan, resumed with the first largest entry so far, ends with the first entry of largest area overall |
| Images.LargestIndex | tg_sender.py:75-79 | on a non-empty mapping, the chosen key has an area ≥ every key's, and every key before it has a strictly smaller area |
| Images.FirstLargestUnique | tg_sender.py:76-79 | at most one entry is the first largest, so the choice is well defined |
| Images.LargestUrl | tg_sender.py:75-80 | an error exactly on an empty mapping; otherwise the URL stored under the first largest key |
| Images.GetImages | tg_sender.py:72-87 | one URL per photo, in the photos' order, each the largest variant's; fails exactly when some photo has no variants, and reports the first such photo |
| Images.GetFirstImage | tg_sender.py:93-104 | nothing when there are no photos, else the first photo's chosen URL; any photo without variants still makes it fail |
| Images.LargestUrlExample | tg_sender.py:75-80 | from {100x200: u1, 300x300: u2, 50x50: u3} the selector picks u2 |
| Images.LargestUrlTie | tg_sender.py:76-79 | on equal areas the entry met first wins |
| Caption.FormatAd | tg_sender.py:106-142 | `format_ad`: the kept parts joined by newlines; its behaviour is stated by `CaptionPartAt`, `CaptionEmpty`, `CaptionStartsWithTitle`, `CaptionEndsWithAddress`, `TitleOnly` and `AllFields` |
| Caption.Candidates | tg_sender.py:116-139 | the five candidate parts with the conditions the code tests; stated by `CandidatesIncluded` |
| Caption.CandidatesIncluded | tg_sender.py:116-139 | the five parts are title link, description, price line, seller line, address, in that order; each is appended exactly when its field is non-empty, and none that is appended is empty |
| Caption.PartsNonEmpty | tg_sender.py:123-139 | no part in the list is an empty string |
| Caption.CaptionPartAt | tg_sender.py:123-141 | each part appears in the caption at its offset, after a newline unless it is the first, so the parts keep the fixed order |
| Caption.CaptionEmpty | tg_sender.py:116-142 | the caption is empty exactly when title, description, price, seller id and address are all empty |
| Caption.CaptionStartsWithTitle | tg_sender.py:125-126 | a listing with a title starts its caption with `[escaped title](https://avito.ru/<id>)` |
| Caption.CaptionEndsWithAddress | tg_sender.py:138-141 | a listing with an address ends its caption with the escaped address |
| Caption.TitleOnly | tg_sender.py:123-142 | a listing with only a title yields exactly the link part |
| Caption.AllFields | tg_sender.py:116-142 | a listing with all five fields gives exactly the five parts, title link, description, price line, seller line, address, in that order, and the caption is those five texts separated by newlines |
| Delivery.Classify | tg_sender.py:54-64 | a 400 is a rejection; another status is a success exactly when it lies outside 400-599; every other status and every network failure is transient |
| Delivery.MediaGroup | tg_sender.py:33-43 | 1 to 10 items; the placeholder alone when there are no images, otherwise the first min(10, n) images in order; only item 0 gets the caption, cut to 1000 characters, and the MarkdownV2 parse mode |
| Delivery.FirstStop | tg_sender.py:45-63 | finds the first attempt within the budget that gets a 400 or a success, with every earlier attempt transient; gives 0 when every attempt is transient |
| Delivery.RetryOutcome | tg_sender.py:45-70 | the outcome the retry loop must reach; its behaviour is stated by `RetryBounded`, `RetryStopsOnRejection`, `RetryStopsOnSuccess`, `RetryAllTransient`, `RetrySucceedsIff`, `RetryRejectedIff` and `RetryDependsOnBudgetOnly` |
| Delivery.Deliver | tg_sender.py:45-70 | the loop's report equals `RetryOutcome`, and the request posted on every attempt is the same, one per attempt |
| Delivery.RetryBounded | tg_sender.py:45-70 | at most max_retries attempts; exactly attempts − 1 sleeps; a verdict other than Exhausted means at least one attempt |
| Delivery.RetryStopsOnRejection | tg_sender.py:54-59 | a 400 on attempt k, after transient failures only, gives exactly k attempts and k − 1 sleeps, with no sleep after attempt k |
| Delivery.RetryStopsOnSuccess | tg_sender.py:61-63 | a success on attempt k, after transient failures only, gives exactly k attempts and k − 1 sleeps |
| Delivery.RetryAllTransient | tg_sender.py:64-70 | all attempts transient gives max_retries attempts and max_retries − 1 sleeps, verdict Exhausted |
| Delivery.RetrySucceedsIff | tg_sender.py:45-63 | verdict Success exactly when some attempt within the budget succeeds after transient failures only |
| Delivery.RetryRejectedIff | tg_sender.py:45-59 | verdict PermanentFailure exactly when some attempt within the budget gets a 400 after transient failures only |
| Delivery.RetryDependsOnBudgetOnly | tg_sender.py:45 | the outcome depends only on the answers to attempts 1..max_retries |
| Delivery.RetryExhaustedExample | tg_sender.py:64-70 | with max_retries = 3 and only network failures: 3 attempts, 2 sleeps |
| Delivery.RetryRejectedFirstExample | tg_sender.py:54-59 | a 400 on the first attempt: 1 attempt, no sleep |
| Delivery.Payload | tg_sender.py:29-53 | the request for one chat: an error exactly when image selection fails, with that error; otherwise it is posted to the `sendMediaGroup` endpoint of the bot, for that chat, with 1 to 10 media items, the first captioned with the caption cut to 1000 characters |
| Delivery.SendToChat | tg_sender.py:29-70 | fails exactly when image selection fails; otherwise the report is `RetryOutcome` and every attempt posts the request built from the caption and media group |
| Delivery.SendToAll | tg_sender.py:89-91 | the chats are served in list order, one delivery each; each chat's result depends only on that chat's own answers, so every chat is attempted whatever happened to earlier ones; only an image-selection error, raised at the first chat, stops the loop |

## Left out

- HTTP transport (`requests.post`) is left out. Each attempt's answer is a model input.
- `json.dumps` of the media list is left out. The payload is the sequence of media items.
- Logging with `loguru` is left out. It is observability only.
- The actual delay of `time.sleep(retry_delay)` is left out. Sleeps are counted, and `retryDelay` is only kept in the configuration.
- Parsing of the "WxH" labels with `int()` is left out. A malformed label's `ValueError` is not modelled, because labels come already parsed.
- `models.py` is not part of this model. The listing is a record of strings and of parsed photos.
- Some falsy values are not represented. A numeric price of 0, or a `sellerId` of 0, counts as absent in the source; the model represents both as `""`.
- `format_ad` raises `AttributeError` when `geo` is present but `None`. That case is not modelled, because `address` is a plain string here.
- Calling `send_to_tg` without a listing is not modelled. `ad` defaults to `None`, and then `format_ad` raises `AttributeError` at `ad.model_dump` for the first chat. A `Listing` here is always present.
- The unused `api_url` (the `sendPhoto` endpoint) and the unused `msg` parameter are left out.
- A photo mapping's keys are distinct in the source, because they are dict keys. The model does not state this; no proof needs it.
- A negative `retry_delay` is not modelled. Python's `time.sleep` raises `ValueError` for it, but only the number of sleeps is modelled here.
