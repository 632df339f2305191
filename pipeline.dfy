/**
 * The decision pipeline of `GuffAutoResponder` as functions on its state:
 * the ignore list, the response history, the batch cursor, and a log of
 * the external effects (calls to the language model, send attempts, saves
 * of the history file). Every external answer is an input: the spam and
 * reply streams, the outcome of each send, the unseen list and the parsed
 * messages.
 */
module Pipeline {
  import opened Options
  import opened Text
  import opened Completions
  import opened IgnoreLists
  import opened History
  import opened Mailbox

  /** The reply `send_response` builds (main.py:302-309). */
  datatype Reply = Reply(fromAddress: string, toAddress: string, subject: string,
                         inReplyTo: string, references: string, body: string)

  /** An external effect of the pipeline. */
  datatype Event =
    | SpamChecked(messageId: string)
    | ResponseRequested(messageId: string)
    | SendAttempted(reply: Reply, delivered: bool)
    | HistorySaved

  /** The responder's mutable state and the effects it has had so far. */
  datatype State = State(tokens: seq<string>, history: Store, position: nat, log: seq<Event>)

  /** The account address and the ignore list's `max_length`. */
  datatype Config = Config(address: string, capacity: nat)

  /** A streamed completion: its chunks' delta contents, or `None` when the call raised. */
  type Stream = Option<seq<Option<string>>>

  /** What the outside world answers about one message this cycle. */
  datatype Oracle = Oracle(spam: Stream, response: Stream, delivered: bool)

  /** The hard-coded automated-sender markers of `should_respond`. */
  const Markers: seq<string> := ["noreply", "donotreply", "mailer-daemon"]

  /** The condition of main.py:277-281 on the lower-cased sender. */
  predicate LocallyRejected(sender: string, tokens: seq<string>, address: string) {
    var s := Lower(sender);
    || Contains(s, Markers[0]) || Contains(s, Markers[1]) || Contains(s, Markers[2])
    || AnyTokenIn(tokens, s)
    || s == Lower(address)
  }

  /** The guarded append of the lower-cased sender (main.py:117-118, main.py:164-165). */
  function Flag(s: State, cfg: Config, sender: string): State {
    s.(tokens := Added(s.tokens, cfg.capacity, Lower(sender)))
  }

  /**
   * `spam_check`: the model is asked (logged); a raised call yields `None`
   * and changes nothing else; otherwise the verdict is the SPAM label, and
   * only a SPAM verdict flags the sender.
   */
  function SpamCheck(s: State, cfg: Config, mail: Email, stream: Stream): (r: (State, Option<bool>))
    ensures r.1.None? <==> stream.None?
    ensures r.1 == Some(true) <==> stream.Some? && IsSpamLabel(Joined(stream.value))
    ensures r.0.log == s.log + [SpamChecked(mail.messageId)]
    ensures r.0.tokens == if r.1 == Some(true) then Added(s.tokens, cfg.capacity, Lower(mail.sender)) else s.tokens
    ensures r.0.history == s.history && r.0.position == s.position
  {
    var s1 := s.(log := s.log + [SpamChecked(mail.messageId)]);
    match stream
    case None => (s1, None)
    case Some(chunks) =>
      var spam := IsSpamLabel(Joined(chunks));
      (if spam then Flag(s1, cfg, mail.sender) else s1, Some(spam))
  }

  /**
   * `should_respond`: the local checks first, then the history, then the
   * spam check. Either early rejection leaves the state untouched, the
   * spam model unasked. The answer is yes exactly when both local checks
   * pass and the spam check does not say SPAM; a raised spam check counts
   * as a pass.
   */
  function ShouldRespond(s: State, cfg: Config, mail: Email, stream: Stream): (r: (State, bool))
    ensures LocallyRejected(mail.sender, s.tokens, cfg.address) ==> r == (s, false)
    ensures Responded(s.history, mail.messageId) ==> r == (s, false)
    ensures r.1 <==> && !LocallyRejected(mail.sender, s.tokens, cfg.address)
                     && !Responded(s.history, mail.messageId)
                     && !(stream.Some? && IsSpamLabel(Joined(stream.value)))
    ensures r.0.history == s.history && r.0.position == s.position
    ensures !LocallyRejected(mail.sender, s.tokens, cfg.address) && !Responded(s.history, mail.messageId) ==>
      r.0 == SpamCheck(s, cfg, mail, stream).0
  {
    if LocallyRejected(mail.sender, s.tokens, cfg.address) then (s, false)
    else if Responded(s.history, mail.messageId) then (s, false)
    else
      var (s1, verdict) := SpamCheck(s, cfg, mail, stream);
      (s1, verdict != Some(true))
  }

  /**
   * `generate_response`: the model is asked (logged); a raised call yields
   * `None`; otherwise the joined text is returned, and a text containing
   * "SPAM" flags the sender.
   */
  function Generate(s: State, cfg: Config, mail: Email, stream: Stream): (r: (State, Option<string>))
    ensures r.1.None? <==> stream.None?
    ensures stream.Some? ==> r.1 == Some(Joined(stream.value))
    ensures r.0.log == s.log + [ResponseRequested(mail.messageId)]
    ensures r.0.tokens == if r.1.Some? && FlagsSpam(r.1.value) then Added(s.tokens, cfg.capacity, Lower(mail.sender)) else s.tokens
    ensures r.0.history == s.history && r.0.position == s.position
  {
    var s1 := s.(log := s.log + [ResponseRequested(mail.messageId)]);
    match stream
    case None => (s1, None)
    case Some(chunks) =>
      var text := Joined(chunks);
      (if FlagsSpam(text) then Flag(s1, cfg, mail.sender) else s1, Some(text))
  }

  /** The reply to `mail`: from the account, to the sender, threaded on its identity. */
  function ReplyTo(cfg: Config, mail: Email, text: string): Reply {
    Reply(cfg.address, mail.sender, "Re: " + mail.subject, mail.messageId, mail.messageId, text)
  }

  /**
   * `send_response`: the send is attempted (logged with its outcome); only
   * a delivered reply is recorded as responded, at `now`, and saved.
   */
  function Send(s: State, cfg: Config, mail: Email, text: string, delivered: bool, now: int): (r: (State, bool))
    ensures r.1 == delivered
    ensures r.0.tokens == s.tokens && r.0.position == s.position
    ensures delivered ==> r.0.history == Recorded(s.history, mail.messageId, mail.sender, mail.subject, now)
    ensures !delivered ==> r.0.history == s.history
    ensures r.0.log == s.log + [SendAttempted(ReplyTo(cfg, mail, text), delivered)] + (if delivered then [HistorySaved] else [])
  {
    var s1 := s.(log := s.log + [SendAttempted(ReplyTo(cfg, mail, text), delivered)]);
    if delivered then
      (s1.(history := Recorded(s.history, mail.messageId, mail.sender, mail.subject, now),
           log := s1.log + [HistorySaved]), true)
    else (s1, false)
  }

  /**
   * One pass of the body of the loop in `run` (main.py:343-349): classify;
   * if accepted, generate; send when the reply is a non-empty string.
   */
  function ProcessEmail(s: State, cfg: Config, mail: Email, o: Oracle, now: int): State {
    var (s1, accepted) := ShouldRespond(s, cfg, mail, o.spam);
    if !accepted then s1
    else
      var (s2, response) := Generate(s1, cfg, mail, o.response);
      if response.Some? && response.value != "" then Send(s2, cfg, mail, response.value, o.delivered, now).0
      else s2
  }

  /** The loop `for email_data in unread_emails` of `run`. */
  function ProcessAll(s: State, cfg: Config, mails: seq<Email>, oracle: Email -> Oracle, now: int): State
    decreases |mails|
  {
    if mails == [] then s
    else
      var last := mails[|mails| - 1];
      ProcessEmail(ProcessAll(s, cfg, mails[..|mails| - 1], oracle, now), cfg, last, oracle(last), now)
  }

  /**
   * `clean_old_history`: keep the entries later than `now - days`; save,
   * and replace the map, only when the number of entries changed.
   */
  function CleanOldHistory(s: State, days: int, now: int): (r: State)
    ensures r.history == Prune(s.history, Cutoff(now, days))
    ensures r.log == s.log + (if |Prune(s.history, Cutoff(now, days))| != |s.history| then [HistorySaved] else [])
    ensures r.tokens == s.tokens && r.position == s.position
  {
    var kept := Prune(s.history, Cutoff(now, days));
    PruneShrinksIff(s.history, Cutoff(now, days));
    if |kept| != |s.history| then s.(history := kept, log := s.log + [HistorySaved]) else s
  }

  /**
   * `get_unread_emails` on the unseen handles (`None` when connecting or
   * searching failed, before the cursor moves): the cursor moves to the
   * window's next value, and the batch is the window's messages without
   * repeats, or nothing when one of them cannot be fetched.
   */
  function GetUnread(s: State, unseen: Option<seq<string>>, fetch: string -> Option<RawMail>): (r: (State, seq<Email>))
    ensures unseen.None? ==> r == (s, [])
    ensures r.0.tokens == s.tokens && r.0.history == s.history && r.0.log == s.log
    ensures unseen.Some? ==> r.0.position <= Min(|unseen.value|, MaxIds)
    ensures |r.1| <= PageSize
    ensures unseen.Some? ==>
      var ids := Candidates(unseen.value);
      var w := Plan(s.position, |ids|);
      var b := FetchAll(Unique(ids[w.start..w.end]), fetch);
      r == (s.(position := w.next), if b.Some? then b.value else [])
  {
    match unseen
    case None => (s, [])
    case Some(u) =>
      var ids := Candidates(u);
      var w := Plan(s.position, |ids|);
      var slice := ids[w.start..w.end];
      var batch := FetchAll(Unique(slice), fetch);
      (s.(position := w.next), if batch.Some? then batch.value else [])
  }

  /** One iteration of the `while True` loop of `run` (main.py:337-354). */
  function Cycle(s: State, cfg: Config, unseen: Option<seq<string>>, fetch: string -> Option<RawMail>,
                 oracle: Email -> Oracle, days: int, now: int): State
  {
    var (s1, mails) := GetUnread(s, unseen, fetch);
    CleanOldHistory(ProcessAll(s1, cfg, mails, oracle, now), days, now)
  }

  /** The state `__init__` leaves: the seeded deque, the loaded history pruned. */
  function Initial(seed: seq<string>, maxLength: nat, loaded: Store, days: int, now: int): (r: State)
    ensures |r.tokens| <= maxLength && r.tokens == KeepLast(seed, maxLength)
    ensures r.history == Prune(loaded, Cutoff(now, days)) && r.position == 0
    ensures r.log == if |Prune(loaded, Cutoff(now, days))| != |loaded| then [HistorySaved] else []
  {
    CleanOldHistory(State(KeepLast(seed, maxLength), loaded, 0, []), days, now)
  }
}
