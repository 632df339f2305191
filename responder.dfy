/**
 * `GuffAutoResponder` (main.py:22-360) as an object whose methods update
 * its fields in place. Each method is proved to leave the object in the
 * state the matching function of `Pipeline` computes from the old state,
 * so every property proved of those functions holds of the object.
 */
module Responder {
  import opened Options
  import opened Text
  import opened Completions
  import opened IgnoreLists
  import opened History
  import opened Mailbox
  import opened Pipeline

  class AutoResponder {
    /** `email_address`. */
    const address: string
    /** `dont_answer`. */
    const ignore: IgnoreList
    /** `response_history`. */
    var history: Store
    /** `current_email_position`. */
    var position: nat
    /** The effects so far: model calls, send attempts, history saves. */
    ghost var log: seq<Event>

    ghost predicate Valid()
      reads this, ignore
    {
      ignore.Valid()
    }

    /** The object's state as a value of `Pipeline.State`. */
    ghost function Abs(): State
      reads this, ignore
    {
      State(ignore.tokens, history, position, log)
    }

    function Cfg(): Config {
      Config(address, ignore.capacity)
    }

    /**
     * `__init__` with the history file's contents `loaded` (an empty map
     * when the file is missing or unreadable): seed the deque, load, prune.
     * The cursor starts at 0, as the `hasattr` test of main.py:202-203 does.
     */
    constructor (address: string, seed: seq<string>, maxLength: nat, loaded: Store, days: int, now: int)
      ensures Valid() && fresh(ignore)
      ensures this.address == address && ignore.capacity == maxLength
      ensures Abs() == Initial(seed, maxLength, loaded, days, now)
    {
      this.address := address;
      ignore := new IgnoreList(seed, maxLength);
      history := loaded;
      position := 0;
      log := [];
      new;
      CleanOldHistory(days, now);
    }

    /** `save_response_history`: the write of the history file, as an event. */
    method SaveResponseHistory()
      modifies this`log
      ensures log == old(log) + [HistorySaved]
    {
      log := log + [HistorySaved];
    }

    /** `clean_old_history(days)` at time `now`. */
    method CleanOldHistory(days: int, now: int)
      requires Valid()
      modifies this
      ensures Valid()
      ensures Abs() == Pipeline.CleanOldHistory(old(Abs()), days, now)
    {
      var cleaned := Prune(history, Cutoff(now, days));
      if |cleaned| != |history| {
        history := cleaned;
        SaveResponseHistory();
      }
    }

    /** `spam_check`, given the model's stream (`None` when the call raised). */
    method SpamCheck(mail: Email, stream: Stream) returns (verdict: Option<bool>)
      requires Valid()
      modifies this, ignore
      ensures Valid()
      ensures (Abs(), verdict) == Pipeline.SpamCheck(old(Abs()), Cfg(), mail, stream)
    {
      log := log + [SpamChecked(mail.messageId)];
      match stream {
        case None =>
          verdict := None;
        case Some(chunks) =>
          var full := Aggregate(chunks);
          full := Upper(Strip(full));
          if full == "SPAM" {
            ignore.Add(Lower(mail.sender));
          }
          verdict := Some(full == "SPAM");
      }
    }

    /** `generate_response`, given the model's stream (`None` when the call raised). */
    method GenerateResponse(mail: Email, stream: Stream) returns (response: Option<string>)
      requires Valid()
      modifies this, ignore
      ensures Valid()
      ensures (Abs(), response) == Generate(old(Abs()), Cfg(), mail, stream)
    {
      log := log + [ResponseRequested(mail.messageId)];
      match stream {
        case None =>
          response := None;
        case Some(chunks) =>
          var full := Aggregate(chunks);
          if Contains(full, "SPAM") {
            ignore.Add(Lower(mail.sender));
          }
          response := Some(full);
      }
    }

    /** `should_respond`, given the spam model's stream for this message. */
    method ShouldRespond(mail: Email, spamStream: Stream) returns (respond: bool)
      requires Valid()
      modifies this, ignore
      ensures Valid()
      ensures (Abs(), respond) == Pipeline.ShouldRespond(old(Abs()), Cfg(), mail, spamStream)
    {
      var sender := Lower(mail.sender);
      if || Contains(sender, "noreply") || Contains(sender, "donotreply") || Contains(sender, "mailer-daemon")
         || ignore.Matches(sender)
         || sender == Lower(address)
      {
        return false;
      }
      if mail.messageId in history && history[mail.messageId].responded {
        return false;
      }
      var spam := SpamCheck(mail, spamStream);
      if spam == Some(true) {
        return false;
      }
      return true;
    }

    /**
     * `send_response`; `delivered` says whether the SMTP exchange went
     * through or raised.
     */
    method SendResponse(mail: Email, text: string, delivered: bool, now: int) returns (ok: bool)
      requires Valid()
      modifies this
      ensures Valid()
      ensures (Abs(), ok) == Send(old(Abs()), Cfg(), mail, text, delivered, now)
    {
      log := log + [SendAttempted(ReplyTo(Cfg(), mail, text), delivered)];
      if !delivered {
        return false;
      }
      history := history[mail.messageId := Record(mail.sender, mail.subject, Some(now), true)];
      SaveResponseHistory();
      return true;
    }

    /**
     * `get_unread_emails`, given the unseen handles in mailbox order
     * (`None` when connecting or searching failed) and the parse of each
     * fetched message (`None` when fetching or parsing raised).
     */
    method GetUnreadEmails(unseen: Option<seq<string>>, fetch: string -> Option<RawMail>) returns (emails: seq<Email>)
      requires Valid()
      modifies this
      ensures Valid()
      ensures (Abs(), emails) == GetUnread(old(Abs()), unseen, fetch)
    {
      if unseen.None? {
        return [];
      }
      var ids := Candidates(unseen.value);
      var start := position;
      var end := Min(start + PageSize, |ids|);
      position := end;
      if start >= |ids| {
        position := 0;
        start := 0;
        end := Min(PageSize, |ids|);
      }
      var batch := CollectEmails(ids[start..end], fetch);
      emails := if batch.Some? then batch.value else [];
    }

    /** One pass of the body of the loop in `run` (main.py:343-349). */
    method HandleEmail(mail: Email, o: Oracle, now: int)
      requires Valid()
      modifies this, ignore
      ensures Valid()
      ensures Abs() == ProcessEmail(old(Abs()), Cfg(), mail, o, now)
    {
      var accepted := ShouldRespond(mail, o.spam);
      if accepted {
        var response := GenerateResponse(mail, o.response);
        if response.Some? && response.value != "" {
          var sent := SendResponse(mail, response.value, o.delivered, now);
        }
      }
    }

    /** The loop `for email_data in unread_emails` of `run`. */
    method ProcessBatch(mails: seq<Email>, oracle: Email -> Oracle, now: int)
      requires Valid()
      modifies this, ignore
      ensures Valid()
      ensures Abs() == ProcessAll(old(Abs()), Cfg(), mails, oracle, now)
    {
      var i := 0;
      while i < |mails|
        invariant 0 <= i <= |mails|
        invariant Valid()
        invariant Abs() == ProcessAll(old(Abs()), Cfg(), mails[..i], oracle, now)
      {
        var mail := mails[i];
        assert mails[..i + 1][..i] == mails[..i];
        HandleEmail(mail, oracle(mail), now);
        i := i + 1;
      }
      assert mails[..i] == mails;
    }

    /** One iteration of the loop of `run`, with `days` passed in. */
    method RunCycle(unseen: Option<seq<string>>, fetch: string -> Option<RawMail>,
                    oracle: Email -> Oracle, days: int, now: int)
      requires Valid()
      modifies this, ignore
      ensures Valid()
      ensures Abs() == Cycle(old(Abs()), Cfg(), unseen, fetch, oracle, days, now)
    {
      var mails := GetUnreadEmails(unseen, fetch);
      ProcessBatch(mails, oracle, now);
      CleanOldHistory(days, now);
    }
  }
}
