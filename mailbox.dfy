/**
 * The mailbox side of `get_unread_emails` (main.py:186-270): which unseen
 * message handles are taken this cycle, the batch cursor
 * `current_email_position`, the per-batch duplicate filter, and the record
 * built from each parsed message.
 */
module Mailbox {
  import opened Options
  import opened Text

  /** Messages handled per cycle. */
  const PageSize: nat := 8
  /** Unseen handles kept per cycle. */
  const MaxIds: nat := 100
  /** Characters of body kept per message. */
  const MaxBody: nat := 4000

  function Min(a: int, b: int): int {
    if a <= b then a else b
  }

  /**
   * A message as the MIME parser hands it over: the `Message-ID` header
   * (absent or present), the address part of `From`, `Subject`, and the
   * decoded text body.
   */
  datatype RawMail = RawMail(messageIdHeader: Option<string>, sender: string, subject: string, body: string)

  /** The record `get_unread_emails` builds for one message. */
  datatype Email = Email(id: string, messageId: string, sender: string, subject: string, body: string)

  /** `s` in reverse order. */
  function Reversed(s: seq<string>): (r: seq<string>)
    ensures |r| == |s|
    ensures forall i :: 0 <= i < |s| ==> r[i] == s[|s| - 1 - i]
  {
    if s == [] then [] else [s[|s| - 1]] + Reversed(s[..|s| - 1])
  }

  /**
   * `email_ids.reverse(); email_ids = email_ids[:100]`: the latest
   * `MaxIds` unseen handles, latest first.
   */
  function Candidates(unseen: seq<string>): (r: seq<string>)
    ensures |r| == Min(|unseen|, MaxIds)
    ensures forall i :: 0 <= i < |r| ==> r[i] == unseen[|unseen| - 1 - i]
  {
    var r := Reversed(unseen);
    if |r| <= MaxIds then r else r[..MaxIds]
  }

  /** The slice `ids[start:end]` served this cycle and the cursor's next value. */
  datatype Window = Window(start: nat, end: nat, next: nat)

  /**
   * The cursor arithmetic of main.py:206-216. The window lies within the
   * list and holds at most a page; a cursor inside the list serves the page
   * that starts there and moves to its end; a cursor at or past the end
   * serves the first page and is left at 0.
   */
  function Plan(position: nat, count: nat): (w: Window)
    ensures w.start <= w.end <= count && w.end - w.start <= PageSize && w.next <= count
    ensures position < count ==> w.start == position && w.end == Min(position + PageSize, count) && w.next == w.end
    ensures count <= position ==> w.start == 0 && w.end == Min(PageSize, count) && w.next == 0
  {
    var start := position;
    var end := Min(start + PageSize, count);
    if start >= count then Window(0, Min(PageSize, count), 0) else Window(start, end, end)
  }

  /** The cursor after `n` cycles over a list of fixed length `count`. */
  function PositionAfter(count: nat, position: nat, n: nat): nat {
    if n == 0 then position else Plan(PositionAfter(count, position, n - 1), count).next
  }

  /** From 0 the cursor advances a full page each cycle until it reaches the end. */
  lemma {:induction false} DrainFromZero(count: nat, n: nat)
    requires n == 0 || (n - 1) * PageSize < count
    ensures PositionAfter(count, 0, n) == Min(n * PageSize, count)
  {
    if n > 0 {
      DrainFromZero(count, n - 1);
    }
  }

  /**
   * Over a list of fixed length, every handle is in the window of one of
   * the first `ceil(count / PageSize)` cycles started from 0.
   */
  lemma EveryHandleServed(count: nat, i: nat)
    requires i < count
    ensures var n := i / PageSize;
      && n < (count + PageSize - 1) / PageSize
      && var w := Plan(PositionAfter(count, 0, n), count);
      w.start <= i < w.end
  {
    var n := i / PageSize;
    DrainFromZero(count, n);
  }

  /**
   * Once the cursor has run off the end, the first page is served on that
   * cycle and again on the next, because the reset leaves the cursor at 0
   * instead of at the end of the page it served.
   */
  lemma WrapServesFirstPageTwice(count: nat, position: nat)
    requires 0 < count <= position
    ensures var w1 := Plan(position, count);
      var w2 := Plan(w1.next, count);
      w1.start == w2.start == 0 && w1.end == w2.end == Min(PageSize, count)
  {
  }

  /** The handles of `ids` without repeats, each at its first occurrence. */
  function Unique(ids: seq<string>): (r: seq<string>)
    ensures forall x :: x in r <==> x in ids
    ensures forall i, j :: 0 <= i < j < |r| ==> r[i] != r[j]
    ensures |r| <= |ids|
  {
    if ids == [] then []
    else
      var u := Unique(ids[..|ids| - 1]);
      if ids[|ids| - 1] in ids[..|ids| - 1] then u else u + [ids[|ids| - 1]]
  }

  /** `a` is `b` with some elements left out. */
  predicate IsSubsequence(a: seq<string>, b: seq<string>) {
    if a == [] then true
    else if b == [] then false
    else if a[|a| - 1] == b[|b| - 1] then IsSubsequence(a[..|a| - 1], b[..|b| - 1])
    else IsSubsequence(a, b[..|b| - 1])
  }

  /** Dropping repeats keeps the relative order of the handles. */
  lemma {:induction false} UniqueKeepsOrder(ids: seq<string>)
    ensures IsSubsequence(Unique(ids), ids)
  {
    if ids != [] {
      var p := ids[..|ids| - 1];
      UniqueKeepsOrder(p);
      if ids[|ids| - 1] !in p {
        var u := Unique(p);
        assert (u + [ids[|ids| - 1]])[..|u|] == u;
      } else {
        SubsequenceOfLonger(Unique(p), p, ids[|ids| - 1]);
      }
    }
  }

  /** A subsequence of `b` is a subsequence of any extension of `b`. */
  lemma {:induction false} SubsequenceOfLonger(a: seq<string>, b: seq<string>, x: string)
    requires IsSubsequence(a, b)
    ensures IsSubsequence(a, b + [x])
    decreases |b|, 1
  {
    assert (b + [x])[..|b|] == b;
    if a != [] && a[|a| - 1] == x {
      SubsequenceDropLast(a, b);
    }
  }

  /** Dropping the last element of a subsequence leaves a subsequence. */
  lemma {:induction false} SubsequenceDropLast(a: seq<string>, b: seq<string>)
    requires a != [] && IsSubsequence(a, b)
    ensures IsSubsequence(a[..|a| - 1], b)
    decreases |b|, 0
  {
    var p := b[..|b| - 1];
    assert p + [b[|b| - 1]] == b;
    if a[|a| - 1] == b[|b| - 1] {
      SubsequenceOfLonger(a[..|a| - 1], p, b[|b| - 1]);
    } else {
      SubsequenceDropLast(a, p);
      SubsequenceOfLonger(a[..|a| - 1], p, b[|b| - 1]);
    }
  }

  /** A batch without repeats passes the filter unchanged. */
  lemma {:induction false} UniqueOfDistinct(ids: seq<string>)
    requires forall i, j :: 0 <= i < j < |ids| ==> ids[i] != ids[j]
    ensures Unique(ids) == ids
  {
    if ids != [] {
      var p := ids[..|ids| - 1];
      UniqueOfDistinct(p);
      assert ids == p + [ids[|ids| - 1]];
    }
  }

  /**
   * `msg['Message-ID'] or f"{sender}_{subject}_{e_id}"`: a missing or empty
   * header falls back to the composite identity.
   */
  function MessageIdOf(header: Option<string>, sender: string, subject: string, id: string): string {
    if header.Some? && header.value != "" then header.value else sender + "_" + subject + "_" + id
  }

  /**
   * The identity is the header when it is non-empty; otherwise it is the
   * composite, which ends in `_` and the handle. Either way it is never
   * empty.
   */
  lemma MessageIdCases(header: Option<string>, sender: string, subject: string, id: string)
    ensures MessageIdOf(header, sender, subject, id) != ""
    ensures header.Some? && header.value != "" ==> MessageIdOf(header, sender, subject, id) == header.value
    ensures (header.None? || header.value == "") ==>
      var m := MessageIdOf(header, sender, subject, id);
      |m| > |id| && m[|m| - |id| - 1..] == "_" + id
  {
  }

  /** The record of main.py:235-260 for handle `id`, body cut at `MaxBody`. */
  function MakeEmail(id: string, raw: RawMail): (e: Email)
    ensures e.id == id && e.sender == raw.sender && e.subject == raw.subject
    ensures e.messageId == MessageIdOf(raw.messageIdHeader, raw.sender, raw.subject, id)
    ensures |e.body| <= MaxBody && |e.body| <= |raw.body| && e.body == raw.body[..|e.body|]
    ensures |raw.body| <= MaxBody ==> e.body == raw.body
    ensures |e.body| == Min(|raw.body|, MaxBody)
  {
    Email(id, MessageIdOf(raw.messageIdHeader, raw.sender, raw.subject, id), raw.sender, raw.subject, Truncate(raw.body, MaxBody))
  }

  /**
   * Fetching and parsing every handle of `ids` in order. Any failure raises
   * out of the whole loop (main.py:264-270), so the result is absent
   * exactly when some handle cannot be fetched; otherwise it holds one
   * record per handle, in order.
   */
  function FetchAll(ids: seq<string>, fetch: string -> Option<RawMail>): (r: Option<seq<Email>>)
    ensures r.None? <==> exists i :: 0 <= i < |ids| && fetch(ids[i]).None?
    ensures r.Some? ==> |r.value| == |ids|
    ensures r.Some? ==> forall i :: 0 <= i < |ids| ==> fetch(ids[i]).Some? && r.value[i] == MakeEmail(ids[i], fetch(ids[i]).value)
  {
    if ids == [] then Some([])
    else
      match FetchAll(ids[..|ids| - 1], fetch)
      case None => None
      case Some(es) =>
        match fetch(ids[|ids| - 1])
        case None => None
        case Some(raw) => Some(es + [MakeEmail(ids[|ids| - 1], raw)])
  }

  /** Appending a handle to a batch appends it to the filtered batch unless it is a repeat. */
  lemma UniqueSnoc(p: seq<string>, x: string)
    ensures Unique(p + [x]) == if x in p then Unique(p) else Unique(p) + [x]
  {
    assert (p + [x])[..|p|] == p;
  }

  /** Fetching one more handle appends its record. */
  lemma FetchAllSnoc(ids: seq<string>, x: string, fetch: string -> Option<RawMail>)
    requires FetchAll(ids, fetch).Some? && fetch(x).Some?
    ensures FetchAll(ids + [x], fetch) == Some(FetchAll(ids, fetch).value + [MakeEmail(x, fetch(x).value)])
  {
    assert (ids + [x])[..|ids|] == ids;
  }

  /** One handle that cannot be fetched makes the whole batch fail. */
  lemma FetchAllFailsAt(ids: seq<string>, x: string, fetch: string -> Option<RawMail>)
    requires x in ids && fetch(x).None?
    ensures FetchAll(ids, fetch).None?
  {
    var i :| 0 <= i < |ids| && ids[i] == x;
    assert fetch(ids[i]).None?;
  }

  /** One step of the fetch loop over `batch[i]`, a handle not seen before and fetched. */
  lemma CollectStep(batch: seq<string>, i: nat, fetch: string -> Option<RawMail>, emails: seq<Email>)
    requires i < |batch| && batch[i] !in batch[..i] && fetch(batch[i]).Some?
    requires FetchAll(Unique(batch[..i]), fetch) == Some(emails)
    ensures FetchAll(Unique(batch[..i + 1]), fetch) == Some(emails + [MakeEmail(batch[i], fetch(batch[i]).value)])
  {
    var x := batch[i];
    assert batch[..i + 1] == batch[..i] + [x];
    UniqueSnoc(batch[..i], x);
    FetchAllSnoc(Unique(batch[..i]), x, fetch);
  }

  /** A handle of the batch that cannot be fetched makes the filtered batch fail. */
  lemma CollectFails(batch: seq<string>, i: nat, fetch: string -> Option<RawMail>)
    requires i < |batch| && fetch(batch[i]).None?
    ensures FetchAll(Unique(batch), fetch).None?
  {
    assert batch[i] in batch;
    FetchAllFailsAt(Unique(batch), batch[i], fetch);
  }

  /** The set of handles in `ids`, as `processed_ids` collects them. */
  function Members(ids: seq<string>): set<string> {
    if ids == [] then {} else Members(ids[..|ids| - 1]) + {ids[|ids| - 1]}
  }

  /** The set holds exactly the handles of the sequence. */
  lemma {:induction false} MembersIn(ids: seq<string>, x: string)
    ensures x in Members(ids) <==> x in ids
  {
    if ids != [] {
      var p := ids[..|ids| - 1];
      MembersIn(p, x);
      assert ids == p + [ids[|ids| - 1]];
    }
  }

  /** Taking one more handle of the batch adds it to the set. */
  lemma MembersStep(batch: seq<string>, i: nat)
    requires i < |batch|
    ensures Members(batch[..i + 1]) == Members(batch[..i]) + {batch[i]}
  {
    assert batch[..i + 1][..i] == batch[..i];
  }

  /** One step of the fetch loop over `batch[i]`, a repeated handle. */
  lemma SkipStep(batch: seq<string>, i: nat)
    requires i < |batch| && batch[i] in batch[..i]
    ensures Unique(batch[..i + 1]) == Unique(batch[..i])
  {
    assert batch[..i + 1] == batch[..i] + [batch[i]];
    UniqueSnoc(batch[..i], batch[i]);
  }

  /**
   * The loop of main.py:222-260 over the served slice: a handle already in
   * `processed_ids` is skipped, every other one is fetched, parsed and
   * appended; a failed fetch abandons the batch.
   */
  method CollectEmails(batch: seq<string>, fetch: string -> Option<RawMail>) returns (r: Option<seq<Email>>)
    ensures r == FetchAll(Unique(batch), fetch)
  {
    var processed: set<string> := {};
    var emails: seq<Email> := [];
    var i := 0;
    while i < |batch|
      invariant 0 <= i <= |batch|
      invariant processed == Members(batch[..i])
      invariant FetchAll(Unique(batch[..i]), fetch) == Some(emails)
    {
      var id := batch[i];
      MembersStep(batch, i);
      MembersIn(batch[..i], id);
      if id !in processed {
        processed := processed + {id};
        var raw := fetch(id);
        if raw.None? {
          CollectFails(batch, i, fetch);
          return None;
        }
        CollectStep(batch, i, fetch, emails);
        emails := emails + [MakeEmail(id, raw.value)];
      } else {
        SkipStep(batch, i);
      }
      i := i + 1;
    }
    assert batch[..i] == batch;
    r := Some(emails);
  }
}
