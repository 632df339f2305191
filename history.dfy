/**
 * The response history `response_history`: a map from message identity to
 * a record `{sender, subject, timestamp, responded}` (main.py:39-74,
 * main.py:315-320). Timestamps are whole seconds since the epoch.
 */
module History {
  import opened Options

  /** Seconds in one `timedelta(days=1)`. */
  const SecondsPerDay: int := 86400

  /**
   * One history entry. A record loaded from the history file may lack its
   * timestamp; `responded` is the truthiness of `.get('responded')`, false
   * when the key is missing.
   */
  datatype Record = Record(sender: string, subject: string, timestamp: Option<int>, responded: bool)

  type Store = map<string, Record>

  /** `v.get('timestamp', 0)`. */
  function TimestampOf(r: Record): int {
    match r.timestamp
    case None => 0
    case Some(t) => t
  }

  /**
   * The cutoff of `clean_old_history`, `days` whole days of 86400 seconds
   * before `now`. The source subtracts calendar days from a naive local
   * time, which differs from this by any change of UTC offset in between.
   */
  function Cutoff(now: int, days: int): int {
    now - days * SecondsPerDay
  }

  /**
   * The comprehension of `clean_old_history`: exactly the entries whose
   * timestamp (0 when missing) is strictly later than the cutoff, each
   * with its value unchanged.
   */
  function Prune(h: Store, cutoff: int): (r: Store)
    ensures forall k :: k in r <==> k in h && TimestampOf(h[k]) > cutoff
    ensures forall k :: k in r ==> r[k] == h[k]
  {
    map k | k in h && TimestampOf(h[k]) > cutoff :: h[k]
  }

  /**
   * `message_id in response_history and response_history[message_id].get('responded')`.
   */
  predicate Responded(h: Store, id: string) {
    id in h && h[id].responded
  }

  /** The write of `send_response`: the record of a successful reply sent at `now`. */
  function Recorded(h: Store, id: string, sender: string, subject: string, now: int): (r: Store)
    ensures Responded(r, id)
    ensures r[id] == Record(sender, subject, Some(now), true)
    ensures forall k :: k != id ==> (k in r <==> k in h) && (k in h ==> r[k] == h[k])
  {
    h[id := Record(sender, subject, Some(now), true)]
  }

  /**
   * Pruning shrinks the history exactly when some entry is at or before the
   * cutoff, which is when `clean_old_history` saves; otherwise it is the
   * identity.
   */
  lemma PruneShrinksIff(h: Store, cutoff: int)
    ensures |Prune(h, cutoff)| < |h| <==> exists k :: k in h && TimestampOf(h[k]) <= cutoff
    ensures |Prune(h, cutoff)| != |h| <==> exists k :: k in h && TimestampOf(h[k]) <= cutoff
    ensures |Prune(h, cutoff)| == |h| ==> Prune(h, cutoff) == h
  {
    var r := Prune(h, cutoff);
    KeysSplit(h, r);
    if k :| k in h && TimestampOf(h[k]) <= cutoff {
      assert k in h.Keys - r.Keys;
    } else {
      assert h.Keys - r.Keys == {};
      assert r == h;
    }
  }

  /** A map whose keys are among another's is smaller by the keys it lacks. */
  lemma KeysSplit(h: Store, r: Store)
    requires r.Keys <= h.Keys
    ensures |h| == |r| + |h.Keys - r.Keys|
  {
    var gone := h.Keys - r.Keys;
    assert h.Keys == r.Keys + gone && r.Keys !! gone;
    assert |h.Keys| == |r.Keys| + |gone|;
  }

  /** Pruning twice at the same cutoff is pruning once. */
  lemma PruneIdempotent(h: Store, cutoff: int)
    ensures Prune(Prune(h, cutoff), cutoff) == Prune(h, cutoff)
  {
  }

  /** A later prune subsumes an earlier one. */
  lemma PruneLater(h: Store, c1: int, c2: int)
    requires c1 <= c2
    ensures Prune(Prune(h, c1), c2) == Prune(h, c2)
  {
  }

  /**
   * A record written at `now` survives a prune at `now` with a positive
   * retention, so the reply it records is still known afterwards.
   */
  lemma FreshRecordSurvives(h: Store, id: string, sender: string, subject: string, now: int, days: int)
    requires days > 0
    ensures Responded(Prune(Recorded(h, id, sender, subject, now), Cutoff(now, days)), id)
  {
  }

  /**
   * A record written at `sentAt` survives a prune taken at `pruneAt`
   * exactly when less than `days` days of seconds lie between the two
   * clock readings, so a cleanup that runs late drops a fresh reply.
   */
  lemma RecordSurvivesIff(h: Store, id: string, sender: string, subject: string, sentAt: int, pruneAt: int, days: int)
    ensures Responded(Prune(Recorded(h, id, sender, subject, sentAt), Cutoff(pruneAt, days)), id)
      <==> pruneAt - sentAt < days * SecondsPerDay
  {
  }

  /** With a retention of zero days or less, even a record written now is pruned. */
  lemma NoRetentionForgets(h: Store, id: string, sender: string, subject: string, now: int, days: int)
    requires days <= 0
    ensures !Responded(Prune(Recorded(h, id, sender, subject, now), Cutoff(now, days)), id)
  {
  }
}
