/**
 * The bounded activity log (class LogMessageSet): every protocol message seen
 * or sent is appended with the next index, and the oldest entries are evicted
 * until at most the configured number remain.
 */
module ActivityLog {
  import opened Options
  import opened Settings

  /** The capacity used when the cached-objects setting cannot be read. */
  const DefaultLimit: int := 50

  /** A log entry: its index, its direction and the message as text, with the session it belongs to. */
  datatype LogMessage = LogMessage(index: int, incoming: bool, session: string, text: string)

  function Min(a: int, b: int): int {
    if a <= b then a else b
  }

  /**
   * The eviction loop: drop the first entry while more than `limit` remain.
   * What is left is the last `min(|s|, limit)` entries of `s`, in their order.
   */
  function Trim<T>(s: seq<T>, limit: int): (r: seq<T>)
    requires limit >= 0
    ensures |r| == Min(|s|, limit)
    ensures r == s[|s| - |r|..]
    decreases |s|
  {
    if |s| <= limit then s else Trim(s[1..], limit)
  }

  /** The last `min(|s|, limit)` entries of `s` are what trimming `s` to `limit` leaves. */
  lemma TrimKeepsNewest<T>(s: seq<T>, limit: int, t: seq<T>)
    requires limit >= 0 && |t| == Min(|s|, limit) && |t| <= |s| && t == s[|s| - |t|..]
    ensures t == Trim(s, limit)
  {
  }

  /** Indices strictly increase along a run of entries. */
  predicate Increasing(s: seq<LogMessage>) {
    forall i, j :: 0 <= i < j < |s| ==> s[i].index < s[j].index
  }

  /** Entries whose indices are positive, strictly increasing and at most `last`. */
  predicate IndexedUpTo(s: seq<LogMessage>, last: int) {
    && Increasing(s)
    && (forall i :: 0 <= i < |s| ==> 0 < s[i].index <= last)
  }

  /** Appending an entry with the next index keeps a log indexed. */
  lemma AppendNextIndex(s: seq<LogMessage>, last: int, m: LogMessage)
    requires IndexedUpTo(s, last) && last >= 0 && m.index == last + 1
    ensures IndexedUpTo(s + [m], last + 1)
  {
    var t := s + [m];
    forall i, j | 0 <= i < j < |t|
      ensures t[i].index < t[j].index
    {
      if j < |s| {
        assert t[i] == s[i] && t[j] == s[j];
      }
    }
  }

  /** Evicting from the front keeps a log indexed. */
  lemma SuffixIndexed(s: seq<LogMessage>, last: int, k: nat)
    requires IndexedUpTo(s, last) && k <= |s|
    ensures IndexedUpTo(s[k..], last)
  {
    var t := s[k..];
    forall i, j | 0 <= i < j < |t|
      ensures t[i].index < t[j].index
    {
      assert t[i] == s[k + i] && t[j] == s[k + j];
    }
  }

  class LogMessageSet {
    var messages: seq<LogMessage>
    var messageIndex: int

    /** Indices are positive, strictly increasing and never above the last index handed out (0 before the first). */
    ghost predicate Valid()
      reads this
    {
      messageIndex >= 0 && IndexedUpTo(messages, messageIndex)
    }

    constructor ()
      ensures Valid() && messages == [] && messageIndex == 0
    {
      messages := [];
      messageIndex := 0;
    }

    /**
     * `add`: the next index is handed out and the new entry appended; then
     * entries are evicted down to the limit. The limit is the cached-objects
     * setting cast to int, 50 when it cannot be read. A negative limit empties
     * the list and then fails removing from the empty list: `ok` is false.
     */
    method Add(text: string, incoming: bool, session: string, limitSetting: Option<int>) returns (ok: bool)
      requires Valid()
      modifies this
      ensures Valid()
      ensures messageIndex == old(messageIndex) + 1
      ensures var limit := IntSetting(limitSetting, DefaultLimit);
        var appended := old(messages) + [LogMessage(messageIndex, incoming, session, text)];
        && (limit >= 0 ==> ok && messages == Trim(appended, limit))
        && (limit < 0 ==> !ok && messages == [])
    {
      messageIndex := messageIndex + 1;
      var msg := LogMessage(messageIndex, incoming, session, text);
      AppendNextIndex(messages, messageIndex - 1, msg);
      messages := messages + [msg];
      var limit := IntSetting(limitSetting, DefaultLimit);
      ok := Evict(limit);
    }

    /**
     * The eviction loop of `add`: remove the first entry while more than `limit`
     * remain. Removing from an empty list fails, which only a negative limit
     * reaches: `ok` is false and the list is empty.
     */
    method Evict(limit: int) returns (ok: bool)
      requires IndexedUpTo(messages, messageIndex)
      modifies this`messages
      ensures IndexedUpTo(messages, messageIndex)
      ensures limit >= 0 ==> ok && messages == Trim(old(messages), limit)
      ensures limit < 0 ==> !ok && messages == []
    {
      ghost var before := messages;
      while |messages| > limit
        invariant |messages| <= |before| && messages == before[|before| - |messages|..]
        invariant limit >= 0 ==> |messages| >= Min(|before|, limit)
      {
        if |messages| == 0 {
          SuffixIndexed(before, messageIndex, |before|);
          return false;
        }
        assert messages[1..] == before[|before| - |messages| + 1..];
        messages := messages[1..];
      }
      SuffixIndexed(before, messageIndex, |before| - |messages|);
      TrimKeepsNewest(before, limit, messages);
      ok := true;
    }

    /** `getMessage`: the entry at position `i`; out of range the source fails, here the result is None. */
    method GetMessage(i: int) returns (m: Option<LogMessage>)
      ensures m.Some? <==> 0 <= i < |messages|
      ensures m.Some? ==> m.value == messages[i]
    {
      if 0 <= i < |messages| {
        m := Some(messages[i]);
      } else {
        m := None;
      }
    }

    /** `getCount`: the number of entries held. */
    method GetCount() returns (n: nat)
      ensures n == |messages|
    {
      n := |messages|;
    }
  }

  /**
   * After an add with a non-negative limit the log holds `min(old size + 1, limit)`
   * entries, never more than the limit; only the oldest were evicted, the rest
   * keep their order, and when the limit is at least 1 the new entry is last.
   */
  lemma {:induction false} AddKeepsNewestWithinLimit(prior: seq<LogMessage>, entry: LogMessage, limit: int)
    requires limit >= 0
    ensures var r := Trim(prior + [entry], limit);
      && |r| == Min(|prior| + 1, limit) && |r| <= limit
      && (exists k :: 0 <= k <= |prior| + 1 && r == (prior + [entry])[k..])
      && (limit >= 1 ==> r[|r| - 1] == entry)
  {
    var s := prior + [entry];
    var r := Trim(s, limit);
    assert r == s[|s| - |r|..];
  }
}
