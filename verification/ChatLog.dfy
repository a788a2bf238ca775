/** The client's chat log (`receivedChat` in packages/client/src/state/match.ts). */
module ChatLog {
  import opened StableSort

  const CHAT_HISTORY_LIMIT := 100

  datatype Entry = Entry(id: int, line: string)

  predicate ById(a: Entry, b: Entry) {
    a.id < b.id
  }

  predicate Has(chat: seq<Entry>, id: int) {
    exists i :: 0 <= i < |chat| && chat[i].id == id
  }

  /** A line already there is ignored; otherwise it is put in its place and the log cut to its newest. */
  function Received(chat: seq<Entry>, entry: Entry): seq<Entry> {
    if Has(chat, entry.id) then chat
    else
      var next := Sort(chat + [entry], ById);
      if |next| > CHAT_HISTORY_LIMIT then next[|next| - CHAT_HISTORY_LIMIT..] else next
  }

  /** The log after these lines arrived in this order. */
  function LogOf(arrivals: seq<Entry>): seq<Entry> {
    if arrivals == [] then [] else Received(LogOf(arrivals[..|arrivals| - 1]), arrivals[|arrivals| - 1])
  }

  predicate Ascending(chat: seq<Entry>) {
    forall i, j :: 0 <= i < j < |chat| ==> chat[i].id < chat[j].id
  }

  /** `chat` holds the highest ids that arrived, up to the limit, in ascending order. */
  ghost predicate HoldsTheNewest(chat: seq<Entry>, arrivals: seq<Entry>) {
    && |chat| <= CHAT_HISTORY_LIMIT
    && Ascending(chat)
    && (forall i :: 0 <= i < |chat| ==> chat[i] in arrivals)
    && (forall k :: 0 <= k < |arrivals| && !Has(chat, arrivals[k].id) ==>
          |chat| == CHAT_HISTORY_LIMIT && arrivals[k].id < chat[0].id)
  }

  /** A new line's place in the log, and what sorting does to the rest. */
  lemma SortedIsAscending(chat: seq<Entry>, entry: Entry)
    requires Ascending(chat) && !Has(chat, entry.id)
    ensures Ascending(Sort(chat + [entry], ById)) && |Sort(chat + [entry], ById)| == |chat| + 1
    ensures forall e :: e in Sort(chat + [entry], ById) <==> e in chat || e == entry
  {
    var all := chat + [entry];
    assert Comparable(all, ById) by {
      forall i, j | 0 <= i < j < |all| ensures ById(all[i], all[j]) || ById(all[j], all[i]) {
        assert j == |chat| ==> all[i].id != entry.id;
      }
    }
    SortIsStrict(all, ById);
    SortKeepsMembers(all, ById);
    SortKeepsLength(all, ById);
    forall i, j | 0 <= i < j < |Sort(all, ById)| ensures Sort(all, ById)[i].id < Sort(all, ById)[j].id {
      assert ById(Sort(all, ById)[i], Sort(all, ById)[j]);
    }
  }

  lemma ReceivedIsAscending(chat: seq<Entry>, entry: Entry)
    requires Ascending(chat) && |chat| <= CHAT_HISTORY_LIMIT
    ensures Ascending(Received(chat, entry)) && |Received(chat, entry)| <= CHAT_HISTORY_LIMIT
    ensures forall e :: e in Received(chat, entry) ==> e in chat || e == entry
  {
    if !Has(chat, entry.id) {
      SortedIsAscending(chat, entry);
      var next := Sort(chat + [entry], ById);
      var cut := |next| - |Received(chat, entry)|;
      assert Received(chat, entry) == next[cut..];
    }
  }

  lemma ReceivedHoldsTheNewest(chat: seq<Entry>, arrivals: seq<Entry>, entry: Entry)
    requires HoldsTheNewest(chat, arrivals)
    ensures HoldsTheNewest(Received(chat, entry), arrivals + [entry])
  {
    var arrivals' := arrivals + [entry];
    var chat' := Received(chat, entry);
    ReceivedIsAscending(chat, entry);
    forall i | 0 <= i < |chat'| ensures chat'[i] in arrivals' {
      assert chat'[i] in chat';
    }
    forall k | 0 <= k < |arrivals'| && !Has(chat', arrivals'[k].id)
      ensures |chat'| == CHAT_HISTORY_LIMIT && arrivals'[k].id < chat'[0].id
    {
      assert arrivals'[k] in arrivals';
      if !Has(chat, entry.id) {
        CutsOnlyTheOldest(chat, arrivals, entry, arrivals'[k]);
      } else {
        assert k < |arrivals|;
      }
    }
  }

  lemma CutsOnlyTheOldest(chat: seq<Entry>, arrivals: seq<Entry>, entry: Entry, missing: Entry)
    requires HoldsTheNewest(chat, arrivals) && !Has(chat, entry.id)
    requires missing in arrivals + [entry] && !Has(Received(chat, entry), missing.id)
    ensures var chat' := Received(chat, entry);
      |chat'| == CHAT_HISTORY_LIMIT && missing.id < chat'[0].id
  {
    SortedIsAscending(chat, entry);
    var next := Sort(chat + [entry], ById);
    var chat' := Received(chat, entry);
    var cut := |next| - |chat'|;
    if Has(next, missing.id) {
      forall i | cut <= i < |next| ensures next[i].id != missing.id {
        assert chat'[i - cut] == next[i];
      }
      var i :| 0 <= i < |next| && next[i].id == missing.id;
      assert next[i].id < next[cut].id;
    } else {
      assert entry in next && missing.id != entry.id by {
      }
      assert missing in arrivals;
      forall i | 0 <= i < |chat| ensures chat[i].id != missing.id {
        assert chat[i] in next;
      }
      assert !Has(chat, missing.id);
      assert missing.id < chat[0].id;
      assert chat'[0] == next[1] && next[0] in next && next[0].id < next[1].id && next[1] in next;
      assert next[1] in chat || next[0] in chat;
    }
  }

  /** Whatever arrives, in whatever order and however often, the log is the newest of it. */
  lemma {:induction false} LogHoldsTheNewest(arrivals: seq<Entry>)
    ensures HoldsTheNewest(LogOf(arrivals), arrivals)
  {
    if arrivals != [] {
      var n := |arrivals| - 1;
      LogHoldsTheNewest(arrivals[..n]);
      ReceivedHoldsTheNewest(LogOf(arrivals[..n]), arrivals[..n], arrivals[n]);
      assert arrivals[..n] + [arrivals[n]] == arrivals;
    }
  }

  // ── Arrival order does not matter ─────────────────────────────────────────────────

  /** Lines with one id are one line, as the server's numbering makes them. */
  ghost predicate Consistent(arrivals: seq<Entry>) {
    forall e, f :: e in arrivals && f in arrivals && e.id == f.id ==> e == f
  }

  ghost predicate SameLines(a: seq<Entry>, b: seq<Entry>) {
    forall e :: e in a <==> e in b
  }

  /** The id `back` places from the newest. */
  function FromNewest(chat: seq<Entry>, back: nat): int
    requires back < |chat|
  {
    chat[|chat| - 1 - back].id
  }

  /** Two logs of the same lines level for their newest `k`: the next of one is no lower than the next of the other. */
  lemma NotLower(a: seq<Entry>, b: seq<Entry>, arrivals: seq<Entry>, k: nat)
    requires HoldsTheNewest(a, arrivals) && HoldsTheNewest(b, arrivals) && k < |b|
    requires forall j :: 0 <= j < k && j < |a| ==> FromNewest(a, j) == FromNewest(b, j)
    ensures k < |a| && FromNewest(a, k) >= FromNewest(b, k)
  {
    var e := b[|b| - 1 - k];
    var i :| 0 <= i < |arrivals| && arrivals[i] == e;
    forall q | 0 <= q < |a| && |a| - k <= q ensures a[q].id > e.id {
      assert FromNewest(a, |a| - 1 - q) == FromNewest(b, |a| - 1 - q);
    }
    if Has(a, e.id) {
      var p :| 0 <= p < |a| && a[p].id == e.id;
      assert p < |a| - k;
    } else {
      assert |a| == CHAT_HISTORY_LIMIT && e.id < a[0].id;
    }
  }

  lemma {:induction false} SameFromTheTop(a: seq<Entry>, b: seq<Entry>, arrivals: seq<Entry>, k: nat)
    requires HoldsTheNewest(a, arrivals) && HoldsTheNewest(b, arrivals) && k <= |a| && k <= |b|
    ensures forall j :: 0 <= j < k ==> FromNewest(a, j) == FromNewest(b, j)
  {
    if k > 0 {
      SameFromTheTop(a, b, arrivals, k - 1);
      NotLower(a, b, arrivals, k - 1);
      NotLower(b, a, arrivals, k - 1);
    }
  }

  lemma HoldsTheNewestOfTheSame(chat: seq<Entry>, first: seq<Entry>, second: seq<Entry>)
    requires HoldsTheNewest(chat, second) && SameLines(first, second)
    ensures HoldsTheNewest(chat, first)
  {
    forall k | 0 <= k < |first| && !Has(chat, first[k].id)
      ensures |chat| == CHAT_HISTORY_LIMIT && first[k].id < chat[0].id
    {
      assert first[k] in second;
      var m :| 0 <= m < |second| && second[m] == first[k];
    }
  }

  /** Two logs that hold the newest of the same lines are the same. */
  lemma NewestIsOne(a: seq<Entry>, b: seq<Entry>, arrivals: seq<Entry>)
    requires HoldsTheNewest(a, arrivals) && HoldsTheNewest(b, arrivals) && Consistent(arrivals)
    ensures a == b
  {
    var n := if |a| < |b| then |a| else |b|;
    SameFromTheTop(a, b, arrivals, n);
    if |a| < |b| {
      NotLower(a, b, arrivals, n);
    } else if |b| < |a| {
      NotLower(b, a, arrivals, n);
    }
    forall i | 0 <= i < |a| ensures a[i] == b[i] {
      assert FromNewest(a, |a| - 1 - i) == FromNewest(b, |a| - 1 - i);
      assert a[i] in arrivals && b[i] in arrivals;
    }
  }

  /** The same lines in any order, repeated any number of times, leave the same log. */
  lemma ArrivalOrderDoesNotMatter(first: seq<Entry>, second: seq<Entry>)
    requires SameLines(first, second) && Consistent(first)
    ensures LogOf(first) == LogOf(second)
  {
    LogHoldsTheNewest(first);
    LogHoldsTheNewest(second);
    HoldsTheNewestOfTheSame(LogOf(second), first, second);
    NewestIsOne(LogOf(first), LogOf(second), first);
  }
}
