/**
 * What the responder does with the text the language model streams back:
 * joining the streamed deltas, reading the one-word spam label of the spam
 * check (main.py:107-120) and the "SPAM" marker in a generated reply
 * (main.py:154-165).
 */
module Completions {
  import opened Options
  import opened Text

  /** One streamed chunk's delta content; `None` and `""` add nothing. */
  function Delta(chunk: Option<string>): string {
    match chunk
    case None => []
    case Some(text) => text
  }

  /** The concatenation of the deltas of `chunks`, in order. */
  function Joined(chunks: seq<Option<string>>): string {
    if chunks == [] then [] else Joined(chunks[..|chunks| - 1]) + Delta(chunks[|chunks| - 1])
  }

  /** Joining distributes over splitting the stream anywhere. */
  lemma {:induction false} JoinedAppend(a: seq<Option<string>>, b: seq<Option<string>>)
    ensures Joined(a + b) == Joined(a) + Joined(b)
    decreases |b|
  {
    if b == [] {
      assert a + b == a;
    } else {
      assert (a + b)[..|a + b| - 1] == a + b[..|b| - 1];
      JoinedAppend(a, b[..|b| - 1]);
    }
  }

  /** Every delta of the stream appears in the joined text, at its place. */
  lemma {:induction false} JoinedPlaces(chunks: seq<Option<string>>, k: nat)
    requires k < |chunks|
    ensures |Joined(chunks[..k])| + |Delta(chunks[k])| <= |Joined(chunks)|
    ensures Joined(chunks)[|Joined(chunks[..k])|..|Joined(chunks[..k])| + |Delta(chunks[k])|] == Delta(chunks[k])
  {
    assert chunks == chunks[..k + 1] + chunks[k + 1..];
    JoinedAppend(chunks[..k + 1], chunks[k + 1..]);
    assert chunks[..k + 1][..k] == chunks[..k];
  }

  /**
   * The loop `for chunk in response: if content: full_response += content`.
   */
  method Aggregate(chunks: seq<Option<string>>) returns (full: string)
    ensures full == Joined(chunks)
  {
    full := "";
    var i := 0;
    while i < |chunks|
      invariant 0 <= i <= |chunks|
      invariant full == Joined(chunks[..i])
    {
      assert chunks[..i + 1][..i] == chunks[..i];
      match chunks[i] {
        case Some(content) =>
          if content != "" {
            full := full + content;
          }
        case None =>
      }
      i := i + 1;
    }
    assert chunks[..i] == chunks;
  }

  /** The spam check's verdict: `full_response.strip().upper() == "SPAM"`. */
  predicate IsSpamLabel(reply: string) {
    Upper(Strip(reply)) == "SPAM"
  }

  /** The generated reply's spam marker: `"SPAM" in full_response`. */
  predicate FlagsSpam(reply: string) {
    Contains(reply, "SPAM")
  }

  /**
   * A reply that the spam check reads as the label is the word itself in
   * some case, surrounded only by whitespace, so its upper-cased form
   * carries the marker that the reply generator looks for.
   */
  lemma SpamLabelIsWord(reply: string)
    requires IsSpamLabel(reply)
    ensures |Strip(reply)| == 4
    ensures FlagsSpam(Upper(reply))
  {
    var a := LeadingSpaces(reply);
    var r := Strip(reply);
    UpperSlice(reply, a, a + 4);
    assert Upper(reply)[a..a + 4] == "SPAM";
    OccursAtContains(Upper(reply), "SPAM", a);
  }

  /** A reply that opens and closes with a visible character strips to itself. */
  lemma StripUnpadded(reply: string)
    requires reply != [] && !IsSpace(reply[0]) && !IsSpace(reply[|reply| - 1])
    ensures Strip(reply) == reply
  {
  }

  /** Whitespace before a visible character is exactly the leading run. */
  lemma LeadingOfPadded(pre: string, rest: string)
    requires rest != [] && !IsSpace(rest[0])
    requires forall i :: 0 <= i < |pre| ==> IsSpace(pre[i])
    ensures LeadingSpaces(pre + rest) == |pre|
  {
    var s := pre + rest;
    assert s[|pre|] == rest[0];
    assert forall i :: 0 <= i < |pre| ==> s[i] == pre[i];
  }

  /** Whitespace after a visible character is exactly the trailing run. */
  lemma TrailingOfPadded(rest: string, post: string)
    requires rest != [] && !IsSpace(rest[|rest| - 1])
    requires forall i :: 0 <= i < |post| ==> IsSpace(post[i])
    ensures TrailingSpaces(rest + post) == |post|
  {
    var s := rest + post;
    assert s[|rest| - 1] == rest[|rest| - 1];
    assert forall i :: |rest| <= i < |s| ==> s[i] == post[i - |rest|];
  }

  /** Surrounding a word that opens and closes visibly with whitespace: the strip recovers the word. */
  lemma StripPadded(pre: string, w: string, post: string)
    requires w != [] && !IsSpace(w[0]) && !IsSpace(w[|w| - 1])
    requires forall i :: 0 <= i < |pre| ==> IsSpace(pre[i])
    requires forall i :: 0 <= i < |post| ==> IsSpace(post[i])
    ensures Strip(pre + w + post) == w
  {
    var s := pre + (w + post);
    assert s == pre + w + post;
    LeadingOfPadded(pre, w + post);
    assert s[|pre|..] == w + post;
    TrailingOfPadded(w, post);
    assert (w + post)[..|w|] == w;
  }

  /**
   * The label tolerates case and surrounding whitespace: the word SPAM in
   * any mix of cases, with any whitespace around it, is the label.
   */
  lemma SpamLabelPadded(pre: string, w: string, post: string)
    requires Upper(w) == "SPAM"
    requires forall i :: 0 <= i < |pre| ==> IsSpace(pre[i])
    requires forall i :: 0 <= i < |post| ==> IsSpace(post[i])
    ensures IsSpamLabel(pre + w + post)
  {
    assert UpperChar(w[0]) == 'S' && UpperChar(w[3]) == 'M';
    StripPadded(pre, w, post);
  }

  /** The bare word is the label. */
  lemma SpamLabelBare()
    ensures IsSpamLabel("SPAM")
  {
    StripUnpadded("SPAM");
  }

  /** Anything after the word defeats the label. */
  lemma SpamLabelRejectsPunctuation()
    ensures !IsSpamLabel("SPAM.")
    ensures !IsSpamLabel("NORMAL")
  {
    StripUnpadded("SPAM.");
    StripUnpadded("NORMAL");
  }
}
