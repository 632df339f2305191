# A verified model of the e-mail auto-responder's decision pipeline

`GuffAutoResponder` (`main.py`) polls an IMAP inbox, decides which unread
messages deserve an automatic reply, asks a language model for the reply,
sends it over SMTP and remembers what it has answered. Under the network
plumbing sits a small stateful pipeline. This project models that pipeline
in Dafny and proves what it guarantees:

- **Ignore list** `dont_answer`: a bounded deque of lower-cased sender
  tokens. Appends are guarded by an exact-string membership test. When the
  deque is full, an append evicts the oldest token. A sender is ignored
  when some token is a substring of the lower-cased sender.
- **Response history** `response_history`: a map from message identity to
  `{sender, subject, timestamp, responded}`. It is pruned by age and
  written on every successful send.
- **Batch cursor** `current_email_position`: each cycle serves at most 8 of
  the latest 100 unseen handles. The cursor wraps to 0 when it runs off
  the end. Handles repeated within a batch are skipped.
- **Classifier** `should_respond`: first the hard-coded markers, the ignore
  list and the account's own address; then the history; finally the spam
  model.
- **One poll cycle** of `run`: classify, generate, send when the reply is
  non-empty, record, then prune the history.

The modules follow that structure:

- `Text`: Python's `lower`, `upper`, `strip`, substring test and slice.
- `Completions`: joining streamed chunks; the SPAM label and SPAM marker.
- `IgnoreLists`: the deque as functions and as the class `IgnoreList`.
- `History`: records, pruning, the write of a successful send.
- `Mailbox`: candidate handles, the cursor window, duplicate filtering,
  message identity and body truncation, and the fetch loop.
- `Pipeline`: the whole decision pipeline as functions on a `State`. The
  state holds the tokens, the history, the cursor and a log of external
  effects. The logged effects are spam-model calls, reply-model calls,
  send attempts with their outcome, and saves of the history file.
- `PipelineProofs`: the guarantees of one message, one batch and whole
  cycles.
- `Responder`: the class `AutoResponder`. Its fields change in place, and
  each method is proved to produce the state that the matching `Pipeline`
  function computes.

External answers are inputs. The spam model and the reply model each
answer with a stream of chunk contents, or `None` when the call raised.
A send is modelled by whether the `try` block of `send_response` runs to
its end. Only then is the reply recorded and counted as delivered. The unseen-handle list is `None` when
connecting or searching failed. The parsed form of each fetched message is
`None` when fetching or parsing raised. The clock is a parameter `now` in
whole seconds. One reading of it serves every send and the prune of a
cycle.

The code behaves differently from what one might expect in a few places.
The model follows the code:

- A spam check that raises returns `None`, which `should_respond` treats
  as "not spam", so the message is answered (`FailedSpamCheckAccepts`).
- A generated reply that contains "SPAM" puts the sender on the ignore
  list but is still sent, because `run` only tests that the reply is
  non-empty (`SpamMarkedReplyStillSent`).
- When the cursor wraps, it is left at 0 rather than at the end of the
  page it served. So the window `[0, 8)` is served on two consecutive
  cycles (`WrapServesFirstPageTwice`). Over an unseen list that does not
  change, that is the same page twice. In the program, the fetches of
  the first cycle mark those messages seen, so the second window usually
  holds other handles.
- One failed fetch inside a batch abandons the whole batch. By then the
  cursor has already moved past it (`GetUnread`, `FetchAll`). The
  messages fetched before the failure are already marked seen by the
  server, so a later `UNSEEN` search does not return them and they are
  never answered.
- A SPAM verdict on a message with no parsable sender stores the empty
  token. The empty token matches every sender, so nothing is ever
  answered again (`EmptySenderSpamSilencesAll`).

## Model

| member | source | states |
|---|---|---|
| `Text.Lower` | main.py:277-281 | `str.lower()`: the same length, and every ASCII capital is replaced by its small letter |
| `Text.IsSpace` | main.py:113 | definition of `str.isspace()`: the Unicode white-space set that `strip()` removes, listed exactly; `LeadingSpaces`, `TrailingSpaces` and `Strip` state its use |
| `Text.Upper` | main.py:113 | `str.upper()`: the same length, and every ASCII small letter is replaced by its capital |
| `Text.LowerIdempotent` | main.py:117 | lower-casing an already lower-cased sender changes nothing, so stored tokens compare with later lower-cased senders |
| `Text.LowerOfLowercase` | main.py:277-281 | an address without capitals is its own lower-case form |
| `Text.UpperSlice` | main.py:113 | upper-casing commutes with taking a slice |
| `Text.LeadingSpaces` | main.py:113 | the leading white-space run: every character in it satisfies `isspace`, and the next one does not |
| `Text.TrailingSpaces` | main.py:113 | the trailing white-space run: every character in it satisfies `isspace`, and the one before it does not |
| `Text.Strip` | main.py:113 | `str.strip()`: a slice of the input that begins after the leading white space, is followed only by white space, and neither starts nor ends with white space |
| `Text.Contains` | main.py:277-280 | definition of the substring test `t in s`; `ContainsIff` characterises it |
| `Text.ContainsIff` | main.py:277-280 | the substring test `t in s` holds exactly when `t` occurs in `s` at some offset |
| `Text.ContainsOccurs` | main.py:277-280 | when `t in s` holds, `t` occurs in `s` at some offset |
| `Text.OccursAtContains` | main.py:277-280 | an occurrence of `t` at any offset of `s` makes `t in s` hold |
| `Text.MissingCharNotContained` | main.py:277-279 | a string that lacks one of the characters of `t` does not contain `t` |
| `Text.EmptyContained` | main.py:280 | the empty string occurs in every string |
| `Text.Truncate` | main.py:251 | `s[:n]` is the first `min(n, len(s))` characters of `s` |
| `Completions.JoinedAppend` | main.py:107-110 | joining the deltas of a stream distributes over splitting the stream |
| `Completions.JoinedPlaces` | main.py:156-158 | every chunk's delta appears in the joined text, at its position in the stream |
| `Completions.Aggregate` | main.py:108-110 | the chunk loop returns exactly the concatenation of the non-empty deltas, in order |
| `Completions.Joined` | main.py:107-110 | definition: the concatenation of the non-empty deltas; `JoinedAppend`, `JoinedPlaces` and `Aggregate` state its properties |
| `Completions.Delta` | main.py:109 | definition of the content a chunk adds: its text, or nothing when the content is missing or empty (the falsy test also at main.py:157); `Aggregate` states its use |
| `Completions.IsSpamLabel` | main.py:113-120 | definition: the stripped, upper-cased reply is exactly `SPAM`; `SpamLabelIsWord`, `SpamLabelPadded`, `SpamLabelBare` and `SpamLabelRejectsPunctuation` state its properties |
| `Completions.FlagsSpam` | main.py:164 | definition: the generated reply contains `SPAM`; `SpamLabelIsWord` and `SpamMarkedReplyStillSent` state its properties |
| `Completions.SpamLabelIsWord` | main.py:113-120 | a reply read as the SPAM label strips to four characters, and its upper-cased form contains the marker "SPAM" |
| `Completions.StripUnpadded` | main.py:113 | a reply that starts and ends with a visible character strips to itself |
| `Completions.StripPadded` | main.py:113 | any white space before and after a word that starts and ends with a visible character is stripped, leaving exactly that word |
| `Completions.SpamLabelPadded` | main.py:113-120 | the word SPAM in any mix of cases, with any white space around it, is read as SPAM |
| `Completions.SpamLabelBare` | main.py:120 | `"SPAM"` is read as SPAM |
| `Completions.SpamLabelRejectsPunctuation` | main.py:113-120 | `"SPAM."` and `"NORMAL"` are not read as SPAM |
| `IgnoreLists.AnyTokenIn` | main.py:280 | the `any(...)` test holds exactly when some stored token is a substring of the sender |
| `IgnoreLists.KeepLast` | main.py:37 | what `deque(seed, maxlen)` keeps: the last `min(len, maxlen)` items of the seed |
| `IgnoreLists.Added` | main.py:117-118 | definition of the guarded append; `AddedCases`, `AddedBounded`, `AddedContains` and `AddedDistinct` state its properties |
| `IgnoreLists.SeedBounded` | main.py:37 | `deque(seed, maxlen)` never exceeds `maxlen`, and a seed that fits is kept whole |
| `IgnoreLists.AddedBounded` | main.py:117-118 | one guarded append keeps the list within its capacity |
| `IgnoreLists.AddedAllBounded` | main.py:37 | after any sequence of guarded appends, the list is still within its capacity |
| `IgnoreLists.AddedCases` | main.py:117-118 | a token already present changes nothing; a new token goes last when there is room; when the list is full the oldest token is dropped and the new one goes last |
| `IgnoreLists.AddedContains` | main.py:164-165 | after a guarded append into a deque of positive capacity, the token is in the list |
| `IgnoreLists.AddedDistinct` | main.py:117 | appends never introduce a duplicate into a list of distinct tokens |
| `IgnoreLists.TokenMatches` | main.py:280 | a stored token silences every sender that contains it |
| `IgnoreLists.EmptyTokenMatchesAll` | main.py:280 | a stored empty token silences every sender |
| `IgnoreLists.IgnoreList.constructor` | main.py:37 | the deque starts as the last `maxlen` seed tokens and is within its capacity |
| `IgnoreLists.IgnoreList.Matches` | main.py:280 | the object's substring membership test |
| `IgnoreLists.IgnoreList.Has` | main.py:117 | exact-string membership, `token in dont_answer` |
| `IgnoreLists.IgnoreList.Add` | main.py:117-118 | the guarded append, in place: the new tokens are `Added(old tokens)`, within capacity |
| `History.Prune` | main.py:68-69 | keeps exactly the entries whose timestamp (0 when missing) is strictly later than the cutoff, and leaves their values unchanged |
| `History.Recorded` | main.py:315-320 | after a send, the identity maps to `{sender, subject, now, responded: true}` and every other entry is unchanged |
| `History.Responded` | main.py:286-287 | definition: the identity is in the history and its record says `responded`; `FreshRecordSurvives`, `RecordSurvivesIff` and `DeliveredThenRefused` state its properties |
| `History.TimestampOf` | main.py:69 | definition of `v.get('timestamp', 0)`; `Prune` states its use |
| `History.Cutoff` | main.py:66 | definition: `days` whole days of 86400 seconds before `now`; `RecordSurvivesIff` states what it keeps |
| `History.RecordSurvivesIff` | main.py:63-69 | a record written at one clock reading survives a prune at a later one exactly when less than `days` days of seconds lie between them |
| `History.PruneShrinksIff` | main.py:71-73 | the pruned map differs in size from the original exactly when some entry is at or before the cutoff; with the same size it is the same map |
| `History.PruneIdempotent` | main.py:68-69 | pruning twice at the same cutoff is pruning once |
| `History.PruneLater` | main.py:354 | a prune at a later cutoff subsumes an earlier one |
| `History.FreshRecordSurvives` | main.py:315-320 | with a positive retention, a record written at `now` survives a prune at `now` |
| `History.NoRetentionForgets` | main.py:66-69 | with a retention of zero or fewer days, a record written now is pruned at once |
| `Mailbox.Reversed` | main.py:197 | `reverse()`: the same length, and element `i` is element `len - 1 - i` of the input |
| `Mailbox.Candidates` | main.py:197-198 | the latest `min(len, 100)` unseen handles, latest first |
| `Mailbox.Plan` | main.py:205-216 | the window lies inside the list and holds at most 8 handles; a cursor inside the list serves from there and moves to the window's end; a cursor at or past the end serves the first page and is reset to 0 |
| `Mailbox.DrainFromZero` | main.py:206-210 | starting from 0 over a list of fixed length, the cursor after `n` cycles is at `min(8n, len)`, for every `n` up to the cycle that reaches the end (on the next cycle it wraps to 0) |
| `Mailbox.EveryHandleServed` | main.py:205-216 | over a list of fixed length, every handle is served within the first `ceil(len / 8)` cycles from 0 |
| `Mailbox.WrapServesFirstPageTwice` | main.py:213-216 | once the cursor has run off the end, the window of that cycle and of the next is the first page `[0, min(8, len))` of a list of that length |
| `Mailbox.Unique` | main.py:199 | the duplicate filter: the same handles as the batch, and no handle twice |
| `Mailbox.UniqueKeepsOrder` | main.py:222-226 | the filter keeps the relative order of the handles |
| `Mailbox.SubsequenceOfLonger` | main.py:222-226 | an order-preserving selection stays one when the batch grows |
| `Mailbox.SubsequenceDropLast` | main.py:222-226 | dropping the last element of an order-preserving selection leaves one |
| `Mailbox.UniqueOfDistinct` | main.py:224-226 | a batch without repeats passes the filter unchanged |
| `Mailbox.MessageIdCases` | main.py:237 | the identity is the `Message-ID` header when that is non-empty; otherwise it is `sender_subject_handle`, which ends in `_` and the handle; it is never empty |
| `Mailbox.MessageIdOf` | main.py:237 | definition: the header when non-empty, else `sender_subject_handle`; `MessageIdCases` states its properties |
| `Mailbox.MakeEmail` | main.py:235-260 | the record carries the handle, sender and subject and the derived identity; its body is the prefix of the parsed body of length `min(len, 4000)`, that is `body[:4000]` |
| `Mailbox.FetchAll` | main.py:222-270 | nothing comes back exactly when some handle cannot be fetched; otherwise there is one record per handle, in order |
| `Mailbox.UniqueSnoc` | main.py:224-226 | one more handle extends the filtered batch unless it is a repeat |
| `Mailbox.FetchAllFailsAt` | main.py:229-270 | one handle that cannot be fetched makes the whole batch fail |
| `Mailbox.MembersIn` | main.py:199-226 | the set `processed_ids` built over a prefix of the batch holds exactly the handles of that prefix |
| `Mailbox.MembersStep` | main.py:224-226 | `processed_ids.add` of the next handle extends the set over the prefix by exactly that handle |
| `Mailbox.CollectEmails` | main.py:222-260 | the fetch loop with `processed_ids` returns the records of the de-duplicated batch |
| `Pipeline.SpamCheck` | main.py:77-123 | the spam model is always asked; a raised call gives `None` and changes nothing else; otherwise the verdict is the SPAM label, and only a SPAM verdict adds the lower-cased sender to the ignore list |
| `Pipeline.ShouldRespond` | main.py:273-296 | a locally rejected sender or an answered identity gets `False` with no state changed and the spam model not asked; otherwise the new state is exactly that of `spam_check`; the answer is `True` exactly when both local checks pass and the spam check does not say SPAM, a raised check counting as a pass |
| `Pipeline.Generate` | main.py:126-170 | the reply model is always asked; a raised call gives `None`; otherwise the joined text is returned, and a text containing "SPAM" adds the sender to the ignore list |
| `Pipeline.Send` | main.py:299-328 | the attempt is logged with its outcome; only a delivered reply writes the history record at `now` and saves; the result is the outcome |
| `Pipeline.CleanOldHistory` | main.py:63-74 | the history becomes the pruned map; a save is logged only when the number of entries changed |
| `Pipeline.GetUnread` | main.py:186-270 | a failed connection changes nothing and yields no messages; otherwise the cursor becomes the `next` of `Plan` over the capped, reversed list, and the batch is the records of the window `ids[start:end]` with repeats dropped, or nothing when one of its fetches raises; tokens, history and log are unchanged, the cursor stays within the list and at most 8 messages come back |
| `Pipeline.Initial` | main.py:23-42 | the constructed state holds the last `max_length` seed tokens, the loaded history pruned and the cursor at 0; its log holds one save exactly when the prune removed an entry |
| `Pipeline.LocallyRejected` | main.py:277-281 | definition: a marker, an ignore-list token or the account's own address matches the lower-cased sender; `SeedPassesWithoutN`, `EmptySenderSpamSilencesAll` and `RejectedMailUntouched` state its properties |
| `Pipeline.Flag` | main.py:117-118 | definition of the guarded append of `sender.lower()` (also main.py:164-165); `SpamCheck` and `Generate` state when it happens, and `AddedCases`, `AddedContains` and `AddedBounded` state what it does |
| `Pipeline.ReplyTo` | main.py:302-307 | definition: the reply from the account to the sender, subject `Re: ` plus the subject, threaded on the message identity; `SendFacts` uses it |
| `Pipeline.ProcessEmail` | main.py:343-349 | definition of one pass of the loop of `run`; `ProcessEmailFacts`, `ProcessEmailBounded`, `RejectedMailUntouched` and `SpamMarkedReplyStillSent` state its properties |
| `Pipeline.ProcessAll` | main.py:341-351 | definition of the loop over the batch; `ProcessAllFacts`, `ProcessAllBounded` and `ProcessAllKeepsPosition` state its properties |
| `Pipeline.Cycle` | main.py:337-354 | definition of one iteration of `while True`; `CycleAtMostOnce`, `CycleBounds` and `NoSecondReplyNextCycle` state its properties |
| `PipelineProofs.DeliveredAppend` | main.py:341-349 | delivered replies are counted additively over consecutive stretches of the log |
| `PipelineProofs.DeliveredSingle` | main.py:349 | a one-event log counts one delivery exactly when that event is a delivered reply |
| `PipelineProofs.PreservesTrans` | main.py:341-349 | the "no second reply" step property composes over consecutive steps |
| `PipelineProofs.ProcessEmailFacts` | main.py:343-349 | one message delivers at most one reply, only to its own identity and none to an answered one; a delivery is recorded at `now`; an answered identity keeps its record |
| `PipelineProofs.SendFacts` | main.py:299-328 | a send logs exactly one delivered reply, to the message's identity, when it goes through, and none otherwise |
| `PipelineProofs.RejectedMailUntouched` | main.py:277-289 | a message from a marker, ignored or own address, or with an answered identity, changes nothing at all: no model call, no send, no state change |
| `PipelineProofs.ProcessEmailBounded` | main.py:343-349 | one message keeps the ignore list within its capacity |
| `PipelineProofs.ShouldRespondBounded` | main.py:273-296 | the check of one message, with its spam screening, keeps the ignore list within its capacity |
| `PipelineProofs.GenerateBounded` | main.py:164-165 | drafting a reply, with its guarded append, keeps the ignore list within its capacity |
| `PipelineProofs.ProcessAllFacts` | main.py:341-351 | over a whole batch, each identity gets at most one delivered reply and none if it was answered before |
| `PipelineProofs.ProcessAllBounded` | main.py:341-351 | a whole batch keeps the ignore list within its capacity |
| `PipelineProofs.ProcessAllKeepsPosition` | main.py:341-351 | processing a batch never moves the cursor |
| `PipelineProofs.CleanOldHistoryFacts` | main.py:354 | the prune adds no delivery and, with a positive retention, keeps the records written this cycle |
| `PipelineProofs.CleanOldHistorySavesIff` | main.py:71-73 | the history is saved, once, exactly when some entry is at or before the cutoff; otherwise nothing is logged |
| `PipelineProofs.CycleAtMostOnce` | main.py:337-354 | a whole cycle delivers at most one reply per identity and none to an answered one; with a positive retention, every identity it answered is still in the history afterwards |
| `PipelineProofs.CycleBounds` | main.py:337-354 | a whole cycle keeps the ignore list within capacity; the cursor stays within the capped unseen list, and does not move when the mailbox cannot be read |
| `PipelineProofs.NoSecondReplyNextCycle` | main.py:335-354 | once a cycle has delivered a reply to an identity, the next cycle delivers none, whatever its inputs, given a positive retention |
| `PipelineProofs.SpamMarkedReplyStillSent` | main.py:164-167 | a generated reply containing "SPAM" adds the sender to the ignore list and is still sent (main.py:348-349) |
| `PipelineProofs.FailedSpamCheckAccepts` | main.py:121-123 | when the spam check raises, the message is accepted (main.py:292) and the ignore list is unchanged |
| `PipelineProofs.NormalVerdictAccepts` | main.py:292-296 | a verdict other than SPAM accepts the message; the spam model was asked (one logged call), and the ignore list is unchanged |
| `PipelineProofs.SpamVerdictIgnoresSender` | main.py:117-120 | a SPAM verdict refuses the message and puts the lower-cased sender on the ignore list |
| `PipelineProofs.EmptySenderSpamSilencesAll` | main.py:117-118 | a SPAM verdict on an empty sender stores the empty token, after which every later sender fails the local checks (main.py:280) |
| `PipelineProofs.DeliveredThenRefused` | main.py:315-320 | after a delivered reply, the record is `{sender, subject, now, true}` and the same identity is refused with nothing consulted (main.py:286-289) |
| `PipelineProofs.SeedPassesWithoutN` | main.py:381-383 | with the seed list `noreply`, `donotreply`, `mailer-daemon`, a sender without the letter `n` that is not the account's own address passes the local checks |
| `PipelineProofs.SampleSendersLackN` | main.py:381-383 | `alice@example.com` and `promo@ads.com` contain no `n`, so the seed markers cannot match them; `promo@ads.com` is already lower-case |
| `PipelineProofs.OrdinarySenderAnsweredOnce` | main.py:273-296 | with an empty history, the seed list and a NORMAL verdict, a sender without `n` that is not the account's own address is answered; after the delivered reply, the same message is refused |
| `PipelineProofs.PromoSenderIgnored` | main.py:113-120 | with the seed list, a SPAM verdict for such a sender refuses the message and puts the lower-cased sender on the ignore list |
| `Responder.AutoResponder.constructor` | main.py:23-42 | the object starts in `Pipeline.Initial`: the seeded deque, the loaded history pruned, the cursor at 0 |
| `Responder.AutoResponder.SaveResponseHistory` | main.py:55-60 | a save is recorded as one event |
| `Responder.AutoResponder.CleanOldHistory` | main.py:63-74 | in place: the new state is `Pipeline.CleanOldHistory` of the old one |
| `Responder.AutoResponder.SpamCheck` | main.py:77-123 | in place: the new state and verdict are `Pipeline.SpamCheck` of the old state |
| `Responder.AutoResponder.GenerateResponse` | main.py:126-170 | in place: the new state and reply are `Pipeline.Generate` of the old state |
| `Responder.AutoResponder.ShouldRespond` | main.py:273-296 | in place: the new state and decision are `Pipeline.ShouldRespond` of the old state |
| `Responder.AutoResponder.HandleEmail` | main.py:343-349 | one pass of the loop of `run` in place: the new state is `Pipeline.ProcessEmail` of the old one |
| `Responder.AutoResponder.SendResponse` | main.py:299-328 | in place: the new state and result are `Pipeline.Send` of the old state |
| `Responder.AutoResponder.GetUnreadEmails` | main.py:186-270 | in place: the cursor and batch are `Pipeline.GetUnread` of the old state |
| `Responder.AutoResponder.ProcessBatch` | main.py:341-351 | the loop over the batch in place: the new state is `Pipeline.ProcessAll` of the old one |
| `Responder.AutoResponder.RunCycle` | main.py:335-354 | one loop iteration in place: the new state is `Pipeline.Cycle` of the old one, so every `CycleAtMostOnce` and `CycleBounds` guarantee holds of the object |

## Left out

- `Mailbox.DrainFromZero`, `Mailbox.EveryHandleServed`, `Mailbox.WrapServesFirstPageTwice`: these assume an unseen list that does not change between cycles. The program opens the inbox read-write, so each fetch of `(RFC822)` sets the `\Seen` flag (RFC 3501, section 6.4.5). Its own fetches therefore shrink the next `UNSEEN` result. The model takes each cycle's unseen list as an input and does not relate it to the fetches of earlier cycles.

- IMAP connection, search, fetch and logout: network I/O. The unseen list and the parsed messages are inputs. A failure of the final `logout`, which also empties the batch, is not modelled.
- MIME parsing and decoding (`message_from_bytes`, `parseaddr`, `walk`, `get_payload`). This is library code. Its result is the input record `RawMail`. A missing `Subject` header, which Python formats as `"None"`, is not modelled: subjects are strings.
- SMTP sending and MIME construction. The reply's header values are kept as a `Reply` value in the log. Whether the send goes through is an input.
- `PipelineProofs.Delivered`: counts replies whose `send_response` finished without raising, that is, recorded sends. A reply that already reached the server before the closing `QUIT` of the `with` block raised counts as not delivered and is not recorded. The model does not capture that `send_response` then returns `False` for a message that went out. The message is then answered again only if it turns up unseen again, since its fetch already marked it seen.
- The OpenAI client calls: remote services. Each is modelled as its stream of chunk contents, or as a raised call.
- Loading and saving `response_history.json`: file I/O. Load is an arbitrary initial map. Each save is an event in the log. A history file whose entries are not records, or whose timestamps are not numbers, would raise in Python. That case is not modelled.
- Logging, `print`, `time.sleep` and the infinite `while True`. One cycle is modelled. The outer `except` of `run` is not modelled, because nothing inside the modelled cycle raises past it.
- `datetime.now()` and float timestamps. Time is whole seconds passed in as `now`. Sub-second differences at the cutoff are not modelled.
- `CycleAtMostOnce`, `NoSecondReplyNextCycle`: one clock reading serves every send and the prune of a cycle, while the source reads the clock at each send and again in the cleanup. So these guarantees assume a cycle is shorter than the retention. `RecordSurvivesIff` states what happens otherwise: a cleanup at least `days` days after a send drops that send's record.
- `History.Cutoff`: subtracts `days * 86400` seconds. The source subtracts calendar days from a naive local time, so a change of UTC offset (daylight saving) in between moves the real cutoff by that change.
- The `__main__` configuration block, except that its seed list is used in the example lemmas. The module-level `days` read by `run` is a parameter.
- `Text.Lower`, `Text.Upper`: only ASCII letters change case. Python's Unicode case mapping is not modelled (for example, `'ſ'.upper() == 'S'`).
- `Text.Strip`: strips exactly the characters for which Python's `str.isspace()` holds, listed explicitly.
