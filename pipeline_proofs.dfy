/**
 * What one message, one batch and whole poll cycles of the pipeline
 * guarantee: the ignore list stays within its capacity, and no message
 * identity is ever answered twice as long as the retention is positive.
 */
module PipelineProofs {
  import opened Options
  import opened Text
  import opened Completions
  import opened IgnoreLists
  import opened History
  import opened Mailbox
  import opened Pipeline

  /** `e` is a delivered reply to the message with identity `m`. */
  predicate IsDeliveryTo(e: Event, m: string) {
    e.SendAttempted? && e.delivered && e.reply.inReplyTo == m
  }

  /** The number of delivered replies to `m` in `log`. */
  function Delivered(log: seq<Event>, m: string): nat {
    if log == [] then 0
    else Delivered(log[..|log| - 1], m) + (if IsDeliveryTo(log[|log| - 1], m) then 1 else 0)
  }

  /** Counting distributes over concatenation of logs. */
  lemma {:induction false} DeliveredAppend(a: seq<Event>, b: seq<Event>, m: string)
    ensures Delivered(a + b, m) == Delivered(a, m) + Delivered(b, m)
    decreases |b|
  {
    if b == [] {
      assert a + b == a;
    } else {
      assert (a + b)[..|a + b| - 1] == a + b[..|b| - 1];
      DeliveredAppend(a, b[..|b| - 1], m);
    }
  }

  /** A one-event log counts its event. */
  lemma DeliveredSingle(e: Event, m: string)
    ensures Delivered([e], m) == if IsDeliveryTo(e, m) then 1 else 0
  {
    assert [e][..0] == [];
  }

  /** `t`'s log continues `s`'s. */
  predicate Extends(s: State, t: State) {
    |s.log| <= |t.log| && t.log[..|s.log|] == s.log
  }

  /** The effects `t` added to `s`. */
  function NewEvents(s: State, t: State): seq<Event>
    requires Extends(s, t)
  {
    t.log[|s.log|..]
  }

  /** Two extensions in a row make one, and their deliveries add up. */
  lemma ExtendsCompose(s: State, u: State, t: State, m: string)
    requires Extends(s, u) && Extends(u, t)
    ensures Extends(s, t)
    ensures Delivered(NewEvents(s, t), m) == Delivered(NewEvents(s, u), m) + Delivered(NewEvents(u, t), m)
  {
    assert t.log[..|s.log|] == t.log[..|u.log|][..|s.log|];
    assert NewEvents(s, t) == NewEvents(s, u) + NewEvents(u, t);
    DeliveredAppend(NewEvents(s, u), NewEvents(u, t), m);
  }

  /** A reply recorded now, never since overwritten. */
  predicate RepliedAt(h: Store, m: string, now: int) {
    Responded(h, m) && TimestampOf(h[m]) == now
  }

  /**
   * `t` follows `s` without a second reply to `m`: the log is extended, at
   * most one reply to `m` is delivered and none if `m` was already
   * answered, a delivery is recorded at `now`, and an answered identity
   * keeps its record.
   */
  predicate Preserves(s: State, t: State, m: string, now: int) {
    && Extends(s, t)
    && t.position == s.position
    && Delivered(NewEvents(s, t), m) <= (if Responded(s.history, m) then 0 else 1)
    && (Delivered(NewEvents(s, t), m) > 0 ==> RepliedAt(t.history, m, now))
    && (Responded(s.history, m) ==> m in t.history && t.history[m] == s.history[m])
  }

  /** Two such steps in a row make one. */
  lemma PreservesTrans(s: State, u: State, t: State, m: string, now: int)
    requires Preserves(s, u, m, now) && Preserves(u, t, m, now)
    ensures Preserves(s, t, m, now)
  {
    assert t.log[..|s.log|] == u.log[..|s.log|];
    assert NewEvents(s, t) == NewEvents(s, u) + NewEvents(u, t);
    DeliveredAppend(NewEvents(s, u), NewEvents(u, t), m);
    if Delivered(NewEvents(s, u), m) > 0 {
      assert Responded(u.history, m);
    }
  }

  /**
   * One message: its effects extend the log; it delivers at most one reply,
   * only to its own identity, and none when that identity was already
   * answered; a delivery is recorded at `now`; and records of answered
   * identities are never changed.
   */
  lemma ProcessEmailFacts(s: State, cfg: Config, mail: Email, o: Oracle, now: int, m: string)
    ensures var t := ProcessEmail(s, cfg, mail, o, now);
      && Preserves(s, t, m, now)
      && (m != mail.messageId ==> Delivered(NewEvents(s, t), m) == 0)
  {
    var t := ProcessEmail(s, cfg, mail, o, now);
    var (s1, accepted) := ShouldRespond(s, cfg, mail, o.spam);
    if !accepted {
      if s1 == s {
        AppendedEvents(s, t, []);
      } else {
        AppendedEvents(s, t, [SpamChecked(mail.messageId)]);
        DeliveredSingle(SpamChecked(mail.messageId), m);
      }
    } else {
      var (s2, response) := Generate(s1, cfg, mail, o.response);
      var head := [SpamChecked(mail.messageId)] + [ResponseRequested(mail.messageId)];
      AppendedEvents(s, s2, head);
      assert Delivered(head, m) == 0 by {
        DeliveredSingle(SpamChecked(mail.messageId), m);
        DeliveredSingle(ResponseRequested(mail.messageId), m);
        DeliveredAppend([SpamChecked(mail.messageId)], [ResponseRequested(mail.messageId)], m);
      }
      if response.Some? && response.value != "" {
        SendFacts(s2, cfg, mail, response.value, o.delivered, now, m);
        ExtendsCompose(s, s2, t, m);
      }
    }
  }

  /** A state whose log grew by `ev` extends the old one by exactly `ev`. */
  lemma AppendedEvents(s: State, t: State, ev: seq<Event>)
    requires t.log == s.log + ev
    ensures Extends(s, t) && NewEvents(s, t) == ev
  {
    assert t.log[..|s.log|] == s.log;
  }

  /** `send_response` delivers exactly one reply, to the message's identity, when the send goes through. */
  lemma SendFacts(s: State, cfg: Config, mail: Email, text: string, delivered: bool, now: int, m: string)
    ensures var t := Send(s, cfg, mail, text, delivered, now).0;
      && Extends(s, t)
      && Delivered(NewEvents(s, t), m) == (if delivered && m == mail.messageId then 1 else 0)
  {
    var reply := ReplyTo(cfg, mail, text);
    var tail := [SendAttempted(reply, delivered)] + (if delivered then [HistorySaved] else []);
    var t := Send(s, cfg, mail, text, delivered, now).0;
    AppendedEvents(s, t, tail);
    DeliveredSingle(SendAttempted(reply, delivered), m);
    if delivered {
      DeliveredSingle(HistorySaved, m);
      DeliveredAppend([SendAttempted(reply, delivered)], [HistorySaved], m);
    } else {
      assert tail == [SendAttempted(reply, delivered)];
    }
  }


  /** A message whose sender the local checks reject changes nothing at all. */
  lemma RejectedMailUntouched(s: State, cfg: Config, mail: Email, o: Oracle, now: int)
    requires LocallyRejected(mail.sender, s.tokens, cfg.address) || Responded(s.history, mail.messageId)
    ensures ProcessEmail(s, cfg, mail, o, now) == s
  {
  }

  /** One message keeps the ignore list within its capacity. */
  lemma ProcessEmailBounded(s: State, cfg: Config, mail: Email, o: Oracle, now: int)
    requires |s.tokens| <= cfg.capacity
    ensures |ProcessEmail(s, cfg, mail, o, now).tokens| <= cfg.capacity
  {
    var (s1, accepted) := ShouldRespond(s, cfg, mail, o.spam);
    ShouldRespondBounded(s, cfg, mail, o.spam);
    if accepted {
      GenerateBounded(s1, cfg, mail, o.response);
    }
  }

  /** The classifier keeps the ignore list within its capacity. */
  lemma ShouldRespondBounded(s: State, cfg: Config, mail: Email, stream: Stream)
    requires |s.tokens| <= cfg.capacity
    ensures |ShouldRespond(s, cfg, mail, stream).0.tokens| <= cfg.capacity
  {
    AddedBounded(s.tokens, cfg.capacity, Lower(mail.sender));
  }

  /** Generating a reply keeps the ignore list within its capacity. */
  lemma GenerateBounded(s: State, cfg: Config, mail: Email, stream: Stream)
    requires |s.tokens| <= cfg.capacity
    ensures |Generate(s, cfg, mail, stream).0.tokens| <= cfg.capacity
  {
    AddedBounded(s.tokens, cfg.capacity, Lower(mail.sender));
  }

  /** A batch: the facts of one message, carried through the loop of `run`. */
  lemma {:induction false} ProcessAllFacts(s: State, cfg: Config, mails: seq<Email>, oracle: Email -> Oracle, now: int, m: string)
    ensures Preserves(s, ProcessAll(s, cfg, mails, oracle, now), m, now)
    decreases |mails|
  {
    if mails == [] {
      assert NewEvents(s, s) == [];
    } else {
      var init := mails[..|mails| - 1];
      var last := mails[|mails| - 1];
      var u := ProcessAll(s, cfg, init, oracle, now);
      ProcessAllFacts(s, cfg, init, oracle, now, m);
      ProcessEmailFacts(u, cfg, last, oracle(last), now, m);
      PreservesTrans(s, u, ProcessEmail(u, cfg, last, oracle(last), now), m, now);
    }
  }

  /** Processing a batch never moves the cursor. */
  lemma {:induction false} ProcessAllKeepsPosition(s: State, cfg: Config, mails: seq<Email>, oracle: Email -> Oracle, now: int)
    ensures ProcessAll(s, cfg, mails, oracle, now).position == s.position
    decreases |mails|
  {
    if mails != [] {
      ProcessAllKeepsPosition(s, cfg, mails[..|mails| - 1], oracle, now);
    }
  }

  /** A batch keeps the ignore list within its capacity. */
  lemma {:induction false} ProcessAllBounded(s: State, cfg: Config, mails: seq<Email>, oracle: Email -> Oracle, now: int)
    requires |s.tokens| <= cfg.capacity
    ensures |ProcessAll(s, cfg, mails, oracle, now).tokens| <= cfg.capacity
    decreases |mails|
  {
    if mails != [] {
      var init := mails[..|mails| - 1];
      var last := mails[|mails| - 1];
      ProcessAllBounded(s, cfg, init, oracle, now);
      ProcessEmailBounded(ProcessAll(s, cfg, init, oracle, now), cfg, last, oracle(last), now);
    }
  }

  /** The prune at the end of a cycle adds no delivery and keeps fresh records. */
  lemma CleanOldHistoryFacts(s: State, days: int, now: int, m: string)
    ensures var t := CleanOldHistory(s, days, now);
      && Extends(s, t)
      && Delivered(NewEvents(s, t), m) == 0
      && (days > 0 && RepliedAt(s.history, m, now) ==> Responded(t.history, m))
  {
    var t := CleanOldHistory(s, days, now);
    if t.log == s.log {
      assert NewEvents(s, t) == [];
    } else {
      assert NewEvents(s, t) == [HistorySaved];
      DeliveredSingle(HistorySaved, m);
    }
  }

  /**
   * `clean_old_history` saves exactly when some entry is at or before the
   * cutoff, and then exactly once.
   */
  lemma CleanOldHistorySavesIff(s: State, days: int, now: int)
    ensures var t := CleanOldHistory(s, days, now);
      && (t.log == s.log + [HistorySaved] <==> exists k :: k in s.history && TimestampOf(s.history[k]) <= Cutoff(now, days))
      && (t.log == s.log <==> !exists k :: k in s.history && TimestampOf(s.history[k]) <= Cutoff(now, days))
  {
    PruneShrinksIff(s.history, Cutoff(now, days));
    assert s.log + [HistorySaved] != s.log by {
      assert |s.log + [HistorySaved]| != |s.log|;
    }
  }

  /**
   * A whole cycle delivers at most one reply per message identity, none to
   * an identity already answered, and with a positive retention the
   * history still knows every identity it answered.
   */
  lemma CycleAtMostOnce(s: State, cfg: Config, unseen: Option<seq<string>>, fetch: string -> Option<RawMail>,
                        oracle: Email -> Oracle, days: int, now: int, m: string)
    ensures var t := Cycle(s, cfg, unseen, fetch, oracle, days, now);
      && Extends(s, t)
      && Delivered(NewEvents(s, t), m) <= (if Responded(s.history, m) then 0 else 1)
      && (days > 0 && Delivered(NewEvents(s, t), m) > 0 ==> Responded(t.history, m))
  {
    var r := GetUnread(s, unseen, fetch);
    var s1 := r.0;
    var u := ProcessAll(s1, cfg, r.1, oracle, now);
    var t := CleanOldHistory(u, days, now);
    ProcessAllFacts(s1, cfg, r.1, oracle, now, m);
    CleanOldHistoryFacts(u, days, now, m);
    ExtendsCompose(s1, u, t, m);
  }

  /**
   * A whole cycle keeps the ignore list within its capacity and the cursor
   * within the capped unseen list; when the mailbox cannot be read the
   * cursor stays where it was.
   */
  lemma CycleBounds(s: State, cfg: Config, unseen: Option<seq<string>>, fetch: string -> Option<RawMail>,
                    oracle: Email -> Oracle, days: int, now: int)
    ensures var t := Cycle(s, cfg, unseen, fetch, oracle, days, now);
      && (|s.tokens| <= cfg.capacity ==> |t.tokens| <= cfg.capacity)
      && (unseen.None? ==> t.position == s.position)
      && (unseen.Some? ==> t.position <= Min(|unseen.value|, MaxIds))
  {
    var r := GetUnread(s, unseen, fetch);
    ProcessAllKeepsPosition(r.0, cfg, r.1, oracle, now);
    if |s.tokens| <= cfg.capacity {
      ProcessAllBounded(r.0, cfg, r.1, oracle, now);
    }
  }

  /**
   * At most once across cycles: once a cycle has delivered a reply to `m`,
   * a following cycle, at any time and on any inputs, delivers none, as
   * long as the retention is positive.
   */
  lemma NoSecondReplyNextCycle(s: State, cfg: Config, u1: Option<seq<string>>, f1: string -> Option<RawMail>,
                               o1: Email -> Oracle, u2: Option<seq<string>>, f2: string -> Option<RawMail>,
                               o2: Email -> Oracle, days: int, now1: int, now2: int, m: string)
    requires days > 0
    ensures var t1 := Cycle(s, cfg, u1, f1, o1, days, now1);
      var t2 := Cycle(t1, cfg, u2, f2, o2, days, now2);
      Extends(s, t1) && Extends(t1, t2) &&
      (Delivered(NewEvents(s, t1), m) > 0 ==> Delivered(NewEvents(t1, t2), m) == 0)
  {
    var t1 := Cycle(s, cfg, u1, f1, o1, days, now1);
    CycleAtMostOnce(s, cfg, u1, f1, o1, days, now1, m);
    CycleAtMostOnce(t1, cfg, u2, f2, o2, days, now2, m);
  }

  /**
   * A generated reply containing "SPAM" still goes out: the sender is added
   * to the ignore list and the send is attempted all the same.
   */
  lemma SpamMarkedReplyStillSent(s: State, cfg: Config, mail: Email, o: Oracle, now: int)
    requires !LocallyRejected(mail.sender, s.tokens, cfg.address) && !Responded(s.history, mail.messageId)
    requires o.spam.None? || !IsSpamLabel(Joined(o.spam.value))
    requires o.response.Some? && FlagsSpam(Joined(o.response.value)) && cfg.capacity > 0
    ensures var t := ProcessEmail(s, cfg, mail, o, now);
      && Lower(mail.sender) in t.tokens
      && SendAttempted(ReplyTo(cfg, mail, Joined(o.response.value)), o.delivered) in t.log
  {
    var text := Joined(o.response.value);
    var (s1, accepted) := ShouldRespond(s, cfg, mail, o.spam);
    assert s1.tokens == s.tokens;
    var (s2, response) := Generate(s1, cfg, mail, o.response);
    assert response == Some(text);
    assert text != "" by {
      ContainsIff(text, "SPAM");
    }
    AddedContains(s1.tokens, cfg.capacity, Lower(mail.sender));
    var t := Send(s2, cfg, mail, text, o.delivered, now).0;
    assert t.log[|s2.log|] == SendAttempted(ReplyTo(cfg, mail, text), o.delivered);
  }

  /**
   * A spam check that raises does not stop the reply: the message is
   * accepted and the ignore list is left as it was.
   */
  lemma FailedSpamCheckAccepts(s: State, cfg: Config, mail: Email)
    requires !LocallyRejected(mail.sender, s.tokens, cfg.address) && !Responded(s.history, mail.messageId)
    ensures var r := ShouldRespond(s, cfg, mail, None);
      r.1 && r.0.tokens == s.tokens
  {
  }

  /**
   * A verdict other than SPAM accepts the message: the spam model was
   * asked, and the ignore list is left as it was.
   */
  lemma NormalVerdictAccepts(s: State, cfg: Config, mail: Email, chunks: seq<Option<string>>)
    requires !LocallyRejected(mail.sender, s.tokens, cfg.address) && !Responded(s.history, mail.messageId)
    requires !IsSpamLabel(Joined(chunks))
    ensures var r := ShouldRespond(s, cfg, mail, Some(chunks));
      r.1 && r.0.tokens == s.tokens && r.0.log == s.log + [SpamChecked(mail.messageId)]
  {
  }

  /** A SPAM verdict refuses the message and puts its sender on the ignore list. */
  lemma SpamVerdictIgnoresSender(s: State, cfg: Config, mail: Email, chunks: seq<Option<string>>)
    requires !LocallyRejected(mail.sender, s.tokens, cfg.address) && !Responded(s.history, mail.messageId)
    requires IsSpamLabel(Joined(chunks)) && cfg.capacity > 0
    ensures var r := ShouldRespond(s, cfg, mail, Some(chunks));
      !r.1 && Lower(mail.sender) in r.0.tokens
  {
    AddedContains(s.tokens, cfg.capacity, Lower(mail.sender));
  }

  /**
   * A SPAM verdict on a message without a parsable sender address stores
   * the empty token, after which every message is rejected by the local
   * checks, so the ignore list is never consulted for a new spam verdict
   * again.
   */
  lemma EmptySenderSpamSilencesAll(s: State, cfg: Config, mail: Email, chunks: seq<Option<string>>, later: Email)
    requires mail.sender == [] && cfg.capacity > 0
    requires !LocallyRejected(mail.sender, s.tokens, cfg.address) && !Responded(s.history, mail.messageId)
    requires IsSpamLabel(Joined(chunks))
    ensures var t := ShouldRespond(s, cfg, mail, Some(chunks)).0;
      LocallyRejected(later.sender, t.tokens, cfg.address)
  {
    SpamVerdictIgnoresSender(s, cfg, mail, chunks);
    assert Lower(mail.sender) == [];
    var t := ShouldRespond(s, cfg, mail, Some(chunks)).0;
    EmptyTokenMatchesAll(t.tokens, Lower(later.sender));
  }

  /**
   * After a delivered reply, asking again about the same identity is
   * refused without consulting anything, whatever the spam model says.
   */
  lemma DeliveredThenRefused(s: State, cfg: Config, mail: Email, text: string, now: int, again: Email, stream: Stream)
    requires again.messageId == mail.messageId
    ensures var t := Send(s, cfg, mail, text, true, now).0;
      && t.history[mail.messageId] == Record(mail.sender, mail.subject, Some(now), true)
      && ShouldRespond(t, cfg, again, stream) == (t, false)
  {
  }

  /**
   * With the seed ignore list, a sender whose lower-cased address lacks the
   * letter `n` (which every seed marker holds) and is not the account's
   * own passes the local checks.
   */
  lemma SeedPassesWithoutN(sender: string, address: string)
    requires 'n' !in Lower(sender) && Lower(sender) != Lower(address)
    ensures !LocallyRejected(sender, Markers, address)
  {
    var low := Lower(sender);
    assert 'n' in Markers[0] && 'n' in Markers[1] && 'n' in Markers[2];
    MissingCharNotContained(low, Markers[0], 'n');
    MissingCharNotContained(low, Markers[1], 'n');
    MissingCharNotContained(low, Markers[2], 'n');
    assert !AnyTokenIn(Markers, low);
  }

  /** The sample addresses of the ignore-list markers' blind spot: neither holds an `n`. */
  lemma SampleSendersLackN()
    ensures 'n' !in Lower("alice@example.com") && 'n' !in Lower("promo@ads.com")
    ensures Lower("promo@ads.com") == "promo@ads.com"
  {
    LowerOfLowercase("promo@ads.com");
  }

  /**
   * A first message from an ordinary sender (one without an `n`, such as
   * `alice@example.com`, see `SampleSendersLackN`), with an empty history,
   * the seed ignore list and a NORMAL verdict, is answered; once the reply
   * is delivered, the same message is refused.
   */
  lemma OrdinarySenderAnsweredOnce(cfg: Config, mail: Email, normal: Stream, now: int)
    requires 'n' !in Lower(mail.sender) && Lower(mail.sender) != Lower(cfg.address)
    requires normal == Some([Some("NORMAL")])
    ensures var r := ShouldRespond(State(Markers, map[], 0, []), cfg, mail, normal);
      && r.1
      && var t := Send(r.0, cfg, mail, "Thank you", true, now).0;
      Responded(t.history, mail.messageId) && !ShouldRespond(t, cfg, mail, normal).1
  {
    SeedPassesWithoutN(mail.sender, cfg.address);
    assert Joined(normal.value) == "NORMAL" by {
      assert normal.value[..0] == [];
    }
    SpamLabelRejectsPunctuation();
    var r := ShouldRespond(State(Markers, map[], 0, []), cfg, mail, normal);
    assert r.1;
    DeliveredThenRefused(r.0, cfg, mail, "Thank you", now, mail, normal);
  }

  /**
   * With the seed ignore list, a SPAM verdict for an ordinary sender (such
   * as `promo@ads.com`) refuses the message and puts the lower-cased
   * sender on the ignore list.
   */
  lemma PromoSenderIgnored(cfg: Config, mail: Email, spam: Stream)
    requires 'n' !in Lower(mail.sender) && Lower(mail.sender) != Lower(cfg.address)
    requires cfg.capacity > 0
    requires spam == Some([Some("SPAM")])
    ensures var r := ShouldRespond(State(Markers, map[], 0, []), cfg, mail, spam);
      !r.1 && Lower(mail.sender) in r.0.tokens
  {
    SeedPassesWithoutN(mail.sender, cfg.address);
    assert Joined(spam.value) == "SPAM" by {
      assert spam.value[..0] == [];
    }
    SpamLabelBare();
    AddedContains(Markers, cfg.capacity, Lower(mail.sender));
  }
}
