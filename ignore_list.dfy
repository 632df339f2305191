/**
 * The ignore list `dont_answer`: a `deque(seed, maxlen=max_length)` of
 * lower-cased sender tokens (main.py:37). It grows only through an append
 * guarded by an exact-string membership test (main.py:117-118,
 * main.py:164-165), evicts its oldest token when full, and is consulted by
 * a substring test against the lower-cased sender (main.py:280).
 */
module IgnoreLists {
  import opened Text

  /** What a deque with `maxlen = cap` keeps of `s`: its last `cap` items. */
  function KeepLast(s: seq<string>, cap: nat): (r: seq<string>)
    ensures |r| == if |s| <= cap then |s| else cap
    ensures r == s[|s| - |r|..]
  {
    if |s| <= cap then s else s[|s| - cap..]
  }

  /** The list after `if token not in dont_answer: dont_answer.append(token)`. */
  function Added(tokens: seq<string>, cap: nat, token: string): seq<string> {
    if token in tokens then tokens else KeepLast(tokens + [token], cap)
  }

  /** The list after a run of guarded appends, in order. */
  function AddedAll(tokens: seq<string>, cap: nat, added: seq<string>): seq<string>
    decreases |added|
  {
    if added == [] then tokens
    else Added(AddedAll(tokens, cap, added[..|added| - 1]), cap, added[|added| - 1])
  }

  /** `any(x in sender for x in dont_answer)`. */
  function AnyTokenIn(tokens: seq<string>, sender: string): (r: bool)
    ensures r <==> exists i :: 0 <= i < |tokens| && Contains(sender, tokens[i])
  {
    if tokens == [] then false
    else Contains(sender, tokens[0]) || AnyTokenIn(tokens[1..], sender)
  }

  /** The initial deque never exceeds its capacity and keeps the newest seeds. */
  lemma SeedBounded(seed: seq<string>, cap: nat)
    ensures |KeepLast(seed, cap)| <= cap
    ensures |seed| <= cap ==> KeepLast(seed, cap) == seed
  {
  }

  /** One guarded append keeps the list within its capacity. */
  lemma AddedBounded(tokens: seq<string>, cap: nat, token: string)
    requires |tokens| <= cap
    ensures |Added(tokens, cap, token)| <= cap
  {
  }

  /** Any run of guarded appends keeps the list within its capacity. */
  lemma {:induction false} AddedAllBounded(tokens: seq<string>, cap: nat, added: seq<string>)
    requires |tokens| <= cap
    ensures |AddedAll(tokens, cap, added)| <= cap
    decreases |added|
  {
    if added != [] {
      AddedAllBounded(tokens, cap, added[..|added| - 1]);
      AddedBounded(AddedAll(tokens, cap, added[..|added| - 1]), cap, added[|added| - 1]);
    }
  }

  /**
   * The three cases of a guarded append: a token already present changes
   * nothing; a new token goes last when there is room; when the list is
   * full the oldest token is evicted and the new one goes last.
   */
  lemma AddedCases(tokens: seq<string>, cap: nat, token: string)
    requires |tokens| <= cap
    ensures token in tokens ==> Added(tokens, cap, token) == tokens
    ensures token !in tokens && |tokens| < cap ==> Added(tokens, cap, token) == tokens + [token]
    ensures token !in tokens && 0 < |tokens| == cap ==> Added(tokens, cap, token) == tokens[1..] + [token]
  {
  }

  /** After a guarded append into a deque of positive capacity, the token is in it. */
  lemma AddedContains(tokens: seq<string>, cap: nat, token: string)
    requires cap > 0
    ensures token in Added(tokens, cap, token)
  {
    if token !in tokens {
      var s := tokens + [token];
      assert KeepLast(s, cap)[|KeepLast(s, cap)| - 1] == token;
    }
  }

  /** A list of distinct tokens stays a list of distinct tokens. */
  lemma AddedDistinct(tokens: seq<string>, cap: nat, token: string)
    requires forall i, j :: 0 <= i < j < |tokens| ==> tokens[i] != tokens[j]
    ensures var r := Added(tokens, cap, token);
      forall i, j :: 0 <= i < j < |r| ==> r[i] != r[j]
  {
    if token !in tokens {
      var s := tokens + [token];
      assert forall i, j :: 0 <= i < j < |s| ==> s[i] != s[j];
      var r := KeepLast(s, cap);
      forall i, j | 0 <= i < j < |r| ensures r[i] != r[j] {
        assert r[i] == s[|s| - |r| + i] && r[j] == s[|s| - |r| + j];
      }
    }
  }

  /** A stored token matches every sender it occurs in. */
  lemma TokenMatches(tokens: seq<string>, k: nat, sender: string)
    requires k < |tokens| && Contains(sender, tokens[k])
    ensures AnyTokenIn(tokens, sender)
  {
  }

  /**
   * The empty token, which the spam check stores for a spam message whose
   * sender has no parsable address, silences every sender.
   */
  lemma EmptyTokenMatchesAll(tokens: seq<string>, sender: string)
    requires [] in tokens
    ensures AnyTokenIn(tokens, sender)
  {
    EmptyContained(sender);
  }

  /** The ignore list as a mutable object: its tokens and its fixed capacity. */
  class IgnoreList {
    var tokens: seq<string>
    const capacity: nat

    ghost predicate Valid()
      reads this
    {
      |tokens| <= capacity
    }

    /** `deque(seed, maxlen=maxLength)`. */
    constructor (seed: seq<string>, maxLength: nat)
      ensures Valid()
      ensures capacity == maxLength && tokens == KeepLast(seed, maxLength)
    {
      capacity := maxLength;
      tokens := KeepLast(seed, maxLength);
    }

    /** Some stored token occurs in the (already lower-cased) sender. */
    function Matches(sender: string): (r: bool)
      reads this
      ensures r <==> exists i :: 0 <= i < |tokens| && Contains(sender, tokens[i])
    {
      AnyTokenIn(tokens, sender)
    }

    /** Exact-string membership, `token in dont_answer`. */
    function Has(token: string): (r: bool)
      reads this
      ensures r <==> exists i :: 0 <= i < |tokens| && tokens[i] == token
    {
      token in tokens
    }

    /** `if token not in dont_answer: dont_answer.append(token)`. */
    method Add(token: string)
      requires Valid()
      modifies this
      ensures Valid()
      ensures tokens == Added(old(tokens), capacity, token)
    {
      if !Has(token) {
        tokens := tokens + [token];
        if |tokens| > capacity {
          tokens := tokens[1..];
        }
      }
    }
  }
}
