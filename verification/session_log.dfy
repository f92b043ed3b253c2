// The session history of an agent: the map store behind a memory tier
// (memory/mapstore.go), promotion (memory/manager.go), and the message log written
// and read back across runs (agent/taskagent/task.go).
module SessionLog {
  import opened Types
  import opened Lex
  import opened MessageKeys

  const SECOND := 1_000_000_000

  // Stored values are messages or something else.
  datatype Stored = Msg(message: Message) | Other

  datatype Record = Record(value: Stored, createdAt: int, ttl: int)

  datatype Entry = Entry(key: string, value: Stored, ttl: int)

  function IsExpired(r: Record, now: int): bool {
    r.ttl > 0 && now - r.createdAt > r.ttl * SECOND
  }

  predicate HasPrefix(k: string, prefix: string) {
    prefix <= k
  }

  // What a listing shows.
  ghost function Listed(entries: map<string, Record>, prefix: string, now: int): set<Entry> {
    set k | k in entries && !IsExpired(entries[k], now) && HasPrefix(k, prefix) ::
      Entry(k, entries[k].value, entries[k].ttl)
  }

  ghost function Live(entries: map<string, Record>, now: int): map<string, Record> {
    map k | k in entries && !IsExpired(entries[k], now) :: entries[k]
  }

  // Without a time to live for ever, else until that many seconds are over.
  ghost predicate LiveAt(r: Record, now: int) {
    r.ttl <= 0 || now <= r.createdAt + r.ttl * 1_000_000_000
  }

  lemma ExpiryMeans(r: Record, now: int)
    ensures LiveAt(r, now) <==> !IsExpired(r, now)
  {
  }

  // No key is listed twice.
  lemma KeysOnce(result: seq<Entry>, entries: map<string, Record>, prefix: string, now: int)
    requires multiset(result) == multiset(Listed(entries, prefix, now))
    ensures forall i, j :: 0 <= i < j < |result| ==> result[i].key != result[j].key
  {
    var listed := Listed(entries, prefix, now);
    Members(result, listed);
    forall i, j | 0 <= i < j < |result|
      ensures result[i] != result[j]
    {
      if result[i] == result[j] {
        CountedTwice(result, i, j);
      }
    }
    assert forall e, f :: e in listed && f in listed && e.key == f.key ==> e == f;
    assert forall i :: 0 <= i < |result| ==> result[i] in listed;
  }

  class MapStore {
    var entries: map<string, Record>

    constructor ()
      ensures entries == map[]
    {
      entries := map[];
    }

    method Get(key: string, now: int) returns (value: Option<Stored>)
      modifies this
      ensures value ==
        if key in old(entries) && LiveAt(old(entries)[key], now) then Some(old(entries)[key].value) else None
      ensures Live(entries, now) == Live(old(entries), now)
      ensures key in entries ==> !IsExpired(entries[key], now)
    {
      if key !in entries {
        return None;
      }
      if IsExpired(entries[key], now) {
        entries := entries - {key};
        return None;
      }
      return Some(entries[key].value);
    }

    method Set(key: string, value: Stored, ttl: int, now: int)
      modifies this
      ensures entries == old(entries)[key := Record(value, now, ttl)]
    {
      entries := entries[key := Record(value, now, ttl)];
    }

    // The entries come in no particular order; expired ones are deleted on the way.
    method List(prefix: string, now: int) returns (result: seq<Entry>)
      modifies this
      ensures multiset(result) == multiset(Listed(old(entries), prefix, now))
      ensures entries == Live(old(entries), now)
      ensures forall e :: e in result <==>
        && e.key in old(entries) && prefix <= e.key && LiveAt(old(entries)[e.key], now)
        && e.value == old(entries)[e.key].value && e.ttl == old(entries)[e.key].ttl
      ensures forall i, j :: 0 <= i < j < |result| ==> result[i].key != result[j].key
      ensures forall k :: k in entries <==> k in old(entries) && LiveAt(old(entries)[k], now)
    {
      ghost var before := entries;
      result := [];
      var left := entries.Keys;
      while left != {}
        invariant left <= before.Keys
        invariant entries == before - Gone(before, left, now)
        invariant multiset(result) == multiset(Listed(before - left, prefix, now))
        decreases left
      {
        var k :| k in left;
        ListNext(before, left, k, prefix, now);
        ghost var gone := Gone(before, left, now);
        assert k !in gone && k in entries && entries[k] == before[k];
        if IsExpired(entries[k], now) {
          entries := entries - {k};
        } else if HasPrefix(k, prefix) {
          result := result + [Entry(k, entries[k].value, entries[k].ttl)];
        }
        left := left - {k};
      }
      assert before - left == before;
      assert before - Gone(before, {}, now) == Live(before, now);
      Members(result, Listed(before, prefix, now));
      KeysOnce(result, before, prefix, now);
    }
  }

  // The expired keys that were visited.
  ghost function Gone(entries: map<string, Record>, left: set<string>, now: int): set<string> {
    set k | k in entries && k !in left && IsExpired(entries[k], now)
  }

  lemma ListNext(entries: map<string, Record>, left: set<string>, k: string, prefix: string, now: int)
    requires k in left && left <= entries.Keys
    ensures Gone(entries, left - {k}, now) ==
      if IsExpired(entries[k], now) then Gone(entries, left, now) + {k} else Gone(entries, left, now)
    ensures multiset(Listed(entries - (left - {k}), prefix, now)) ==
      if !IsExpired(entries[k], now) && HasPrefix(k, prefix)
      then multiset(Listed(entries - left, prefix, now)) + multiset{Entry(k, entries[k].value, entries[k].ttl)}
      else multiset(Listed(entries - left, prefix, now))
  {
    var e := Entry(k, entries[k].value, entries[k].ttl);
    var old', next := Listed(entries - left, prefix, now), Listed(entries - (left - {k}), prefix, now);
    assert e !in old';
    if !IsExpired(entries[k], now) && HasPrefix(k, prefix) {
      forall x
        ensures x in next <==> x in old' + {e}
      {
        if x in next && x != e {
          assert x.key in entries - left;
        }
      }
      assert next == old' + {e};
      assert multiset(old' + {e}) == multiset(old') + multiset{e};
    } else {
      forall x
        ensures x in next <==> x in old'
      {
        if x in next {
          assert x.key in entries - left;
        }
      }
      assert next == old';
    }
  }

  // ----- the message log -----

  function KeyOf(e: Entry): string {
    e.key
  }

  // The messages of the store are those numbered from..|all|-1, under their keys and without
  // expiry. Under other keys there may be values of other types.
  ghost predicate Logs(entries: map<string, Record>, all: seq<Message>, from: nat) {
    && from <= |all|
    && (forall i :: from <= i < |all| ==>
        Key(i) in entries && entries[Key(i)].value == Msg(all[i]) && entries[Key(i)].ttl == 0)
    && (forall k :: k in entries && PREFIX <= k && entries[k].value.Msg? ==>
          exists i :: from <= i < |all| && k == Key(i))
  }

  // The listing of a log in index order.
  ghost function InOrder(all: seq<Message>, from: nat): seq<Entry>
    requires from <= |all|
  {
    seq(|all| - from, i requires 0 <= i < |all| - from => Entry(Key(from + i), Msg(all[from + i]), 0))
  }

  lemma KeyPrefix(i: nat)
    ensures HasPrefix(Key(i), PREFIX)
  {
    KeyValue(i);
  }

  // Among the listed entries, the messages are those of the log.
  lemma ListedInOrder(entries: map<string, Record>, all: seq<Message>, from: nat, now: int)
    requires Logs(entries, all, from)
    ensures forall e :: e in Listed(entries, PREFIX, now) && e.value.Msg? <==> e in InOrder(all, from)
    ensures Live(entries, now).Keys >= (set i | from <= i < |all| :: Key(i))
  {
    hide Key, IsExpired;
    var listed, ordered := Listed(entries, PREFIX, now), InOrder(all, from);
    forall e
      ensures e in listed && e.value.Msg? <==> e in ordered
    {
      if e in listed && e.value.Msg? {
        var i :| from <= i < |all| && e.key == Key(i);
        assert ordered[i - from] == e;
      }
      if e in ordered {
        var i :| 0 <= i < |ordered| && ordered[i] == e;
        KeyPrefix(from + i);
        NeverExpires(entries[Key(from + i)], now);
      }
    }
    forall i | from <= i < |all|
      ensures Key(i) in Live(entries, now)
    {
      NeverExpires(entries[Key(i)], now);
    }
  }

  // The listing in index order has every entry once.
  lemma InOrderOnce(all: seq<Message>, from: nat, e: Entry)
    requires from <= |all|
    ensures multiset(InOrder(all, from))[e] == if e in InOrder(all, from) then 1 else 0
  {
    hide Key;
    var ordered := InOrder(all, from);
    forall i, j | 0 <= i < j < |ordered|
      ensures ordered[i] != ordered[j]
    {
      KeysDiffer(from + i, from + j);
    }
    DistinctMultiset(ordered, set x | x in ordered);
    assert multiset(set x | x in ordered)[e] == if e in ordered then 1 else 0;
  }

  // The entries that hold messages, as the loading loop keeps them.
  function Kept(s: seq<Entry>): seq<Entry> {
    if s == [] then []
    else Kept(s[..|s| - 1]) + if s[|s| - 1].value.Msg? then [s[|s| - 1]] else []
  }

  lemma {:induction false} KeptCounts(s: seq<Entry>, e: Entry)
    ensures multiset(Kept(s))[e] == if e.value.Msg? then multiset(s)[e] else 0
  {
    if s != [] {
      assert s == s[..|s| - 1] + [s[|s| - 1]];
      KeptCounts(s[..|s| - 1], e);
    }
  }

  // Dropping entries keeps the order of the rest.
  lemma {:induction false} KeptSorted(s: seq<Entry>)
    requires SortedBy(s, KeyOf)
    ensures SortedBy(Kept(s), KeyOf) && forall e :: e in Kept(s) ==> e in s
  {
    if s != [] {
      hide Le;
      var n := |s| - 1;
      KeptSorted(s[..n]);
      var kept := Kept(s[..n]);
      forall i | 0 <= i < |kept|
        ensures Le(KeyOf(kept[i]), KeyOf(s[n]))
      {
        assert kept[i] in s[..n];
        var j :| 0 <= j < n && s[..n][j] == kept[i];
        assert Le(KeyOf(s[j]), KeyOf(s[n]));
      }
    }
  }

  lemma NeverExpires(r: Record, now: int)
    requires r.ttl == 0
    ensures !IsExpired(r, now)
  {
  }

  lemma {:induction false} DistinctMultiset<T(!new)>(s: seq<T>, all: set<T>)
    requires (forall i, j :: 0 <= i < j < |s| ==> s[i] != s[j]) && forall x :: x in s <==> x in all
    ensures multiset(s) == multiset(all)
  {
    if s == [] {
      assert all == {};
    } else {
      var n := |s| - 1;
      assert s == s[..n] + [s[n]];
      DistinctMultiset(s[..n], all - {s[n]});
      assert all == (all - {s[n]}) + {s[n]};
      assert multiset((all - {s[n]}) + {s[n]}) == multiset(all - {s[n]}) + multiset{s[n]};
    }
  }

  // Whatever else the store holds, the messages of its listing are those of the log.
  lemma KeptListing(result: seq<Entry>, entries: map<string, Record>, all: seq<Message>, now: int)
    requires Logs(entries, all, 0) && multiset(result) == multiset(Listed(entries, PREFIX, now))
    ensures multiset(Kept(result)) == multiset(InOrder(all, 0))
  {
    hide Logs, Listed, InOrder, Kept;
    ListedInOrder(entries, all, 0, now);
    forall e
      ensures multiset(Kept(result))[e] == multiset(InOrder(all, 0))[e]
    {
      KeptCounts(result, e);
      InOrderOnce(all, 0, e);
    }
  }

  // Sorting any such listing of a log of at most a million messages puts them in index order.
  lemma SortedListing(result: seq<Entry>, entries: map<string, Record>, all: seq<Message>, now: int)
    requires Logs(entries, all, 0) && multiset(result) == multiset(Listed(entries, PREFIX, now))
    ensures |Kept(SortBy(result, KeyOf))| == |all|
    ensures |all| <= 1_000_000 ==> Kept(SortBy(result, KeyOf)) == InOrder(all, 0)
  {
    hide Logs, Listed, Kept, SortBy;
    var sorted := SortBy(result, KeyOf);
    KeptListing(sorted, entries, all, now);
    SortBySorted(result, KeyOf);
    KeptSorted(sorted);
    SameSize(Kept(sorted), InOrder(all, 0));
    if |all| <= 1_000_000 {
      InOrderSorted(all);
      SortedUnique(InOrder(all, 0), Kept(sorted), KeyOf);
    }
  }

  lemma SameSize<T>(a: seq<T>, b: seq<T>)
    requires multiset(a) == multiset(b)
    ensures |a| == |b|
  {
    assert |multiset(a)| == |a| && |multiset(b)| == |b|;
  }

  lemma InOrderSorted(all: seq<Message>)
    requires |all| <= 1_000_000
    ensures SortedBy(InOrder(all, 0), KeyOf) && KeysDistinct(multiset(InOrder(all, 0)), KeyOf)
  {
    hide Key;
    var ordered := InOrder(all, 0);
    KeysOrderedIff(|all|);
    forall x, y | x in multiset(ordered) && y in multiset(ordered) && KeyOf(x) == KeyOf(y)
      ensures x == y
    {
      var i :| 0 <= i < |ordered| && ordered[i] == x;
      var j :| 0 <= j < |ordered| && ordered[j] == y;
      if i != j {
        KeysDiffer(i, j);
      }
    }
  }

  // loadSessionMessages
  method LoadSessionMessages(session: MapStore, now: int, ghost log: seq<Message>) returns (msgs: seq<Message>)
    requires Logs(session.entries, log, 0)
    modifies session
    ensures |msgs| == |log| && (|log| <= 1_000_000 ==> msgs == log)
    ensures Logs(session.entries, log, 0)
  {
    hide *;
    ghost var before := session.entries;
    LogsLive(before, log, 0, now);
    var entries := session.List(PREFIX, now);
    var sorted := SortBy(entries, KeyOf);
    SortedListing(entries, before, log, now);
    msgs := Messages(sorted);
    if |log| <= 1_000_000 {
      MessagesInOrder(msgs, log);
    }
  }

  // The loop over the sorted entries; values of other types are dropped.
  method Messages(sorted: seq<Entry>) returns (msgs: seq<Message>)
    ensures |msgs| == |Kept(sorted)| && forall k :: 0 <= k < |msgs| ==> Kept(sorted)[k].value == Msg(msgs[k])
  {
    msgs := [];
    var i := 0;
    while i < |sorted|
      invariant i <= |sorted| && |msgs| == |Kept(sorted[..i])|
      invariant forall k :: 0 <= k < |msgs| ==> Kept(sorted[..i])[k].value == Msg(msgs[k])
    {
      assert sorted[..i + 1][..i] == sorted[..i];
      if sorted[i].value.Msg? {
        msgs := msgs + [sorted[i].value.message];
      }
      i := i + 1;
    }
    assert sorted[..i] == sorted;
  }

  lemma MessagesInOrder(msgs: seq<Message>, log: seq<Message>)
    requires var ordered := InOrder(log, 0);
             |msgs| == |ordered| && forall k :: 0 <= k < |ordered| ==> ordered[k].value == Msg(msgs[k])
    ensures msgs == log
  {
    hide Key;
    var ordered := InOrder(log, 0);
    forall k | 0 <= k < |log|
      ensures msgs[k] == log[k]
    {
      assert ordered[k].value == Msg(log[k]);
    }
  }

  lemma LogsLive(entries: map<string, Record>, all: seq<Message>, from: nat, now: int)
    requires Logs(entries, all, from)
    ensures Logs(Live(entries, now), all, from)
  {
    hide Key;
  }

  // loadAndCompressSessionHistory: the count is taken before compression, whatever the compressor does.
  method LoadAndCompress(session: MapStore, now: int, compressor: Option<seq<Message> -> Option<seq<Message>>>,
                         ghost log: seq<Message>)
    returns (msgs: seq<Message>, originalCount: nat)
    requires Logs(session.entries, log, 0)
    modifies session
    ensures Logs(session.entries, log, 0) && originalCount == |log|
    ensures |log| <= 1_000_000 ==> msgs == match compressor
      case None => log
      case Some(c) => if |log| > 0 && c(log).Some? then c(log).value else log
  {
    var loaded := LoadSessionMessages(session, now, log);
    originalCount := |loaded|;
    msgs := loaded;
    if compressor.Some? && |loaded| > 0 {
      var compressed := compressor.value(loaded);
      if compressed.Some? {
        msgs := compressed.value;
      }
    }
  }

  // Writing message number i extends the log by it.
  lemma LogsWrite(entries: map<string, Record>, all: seq<Message>, from: nat, msg: Message, now: int)
    requires Logs(entries, all, from)
    ensures Logs(entries[Key(|all|) := Record(Msg(msg), now, 0)], all + [msg], from)
  {
    hide Key;
    forall i | from <= i < |all|
      ensures Key(i) != Key(|all|)
    {
      KeysDiffer(i, |all|);
    }
    var next := entries[Key(|all|) := Record(Msg(msg), now, 0)];
    forall k | k in next && HasPrefix(k, PREFIX) && next[k].value.Msg?
      ensures exists i :: from <= i < |all| + 1 && k == Key(i)
    {
      if k != Key(|all|) {
        var i :| from <= i < |all| && k == Key(i);
      }
    }
  }

  ghost predicate OnlyMessages(entries: map<string, Record>) {
    forall k :: k in entries ==> HasPrefix(k, PREFIX) && entries[k].value.Msg?
  }

  method WriteMessages(working: MapStore, msgs: seq<Message>, idx0: nat, now: int, ghost all: seq<Message>,
                       ghost from: nat)
    returns (idx: nat)
    requires Logs(working.entries, all, from) && idx0 == |all| && OnlyMessages(working.entries)
    modifies working
    ensures Logs(working.entries, all + msgs, from) && idx == |all + msgs| && OnlyMessages(working.entries)
  {
    hide Key, Logs;
    idx := idx0;
    var i := 0;
    assert all + msgs[..0] == all;
    while i < |msgs|
      invariant i <= |msgs| && idx == |all| + i && OnlyMessages(working.entries)
      invariant Logs(working.entries, all + msgs[..i], from)
    {
      LogsWrite(working.entries, all + msgs[..i], from, msgs[i], now);
      assert (all + msgs[..i]) + [msgs[i]] == all + msgs[..i + 1];
      KeyPrefix(idx);
      working.Set(Key(idx), Msg(msgs[i]), 0, now);
      idx := idx + 1;
      i := i + 1;
    }
    assert msgs[..i] == msgs;
  }

  // PromoteToSession with PromoteAll: every working entry is written to the session.
  method PromoteToSession(working: MapStore, session: MapStore, now: int, ghost log: seq<Message>,
                          ghost all: seq<Message>)
    requires working != session && log <= all
    requires Logs(session.entries, log, 0) && Logs(working.entries, all, |log|)
    requires OnlyMessages(working.entries)
    modifies working, session
    ensures Logs(session.entries, all, 0)
  {
    hide Key, Logs, Live, Listed, IsExpired, InOrder;
    ListedAll(working.entries, all, |log|, now);
    ghost var listed := Listed(working.entries, "", now);
    var entries := working.List("", now);
    Members(entries, listed);
    var i := 0;
    ghost var before := session.entries;
    assert entries[..0] == [];
    while i < |entries|
      invariant i <= |entries|
      invariant Merged(before, entries[..i], session.entries)
    {
      MergedNext(before, entries, i, session.entries, now);
      session.Set(entries[i].key, entries[i].value, entries[i].ttl, now);
      i := i + 1;
    }
    assert entries[..i] == entries;
    PromotedLog(before, entries, session.entries, log, all);
  }

  lemma Members<T(!new)>(s: seq<T>, all: set<T>)
    requires multiset(s) == multiset(all)
    ensures forall x :: x in s <==> x in all
  {
    forall x
      ensures x in s <==> x in all
    {
      assert x in multiset(s) <==> x in multiset(all);
    }
  }

  // after is before with the given entries written over it.
  ghost predicate Merged(before: map<string, Record>, entries: seq<Entry>, after: map<string, Record>) {
    && (forall k :: k in after ==>
        if HasKey(entries, k) then exists e :: e in entries && WrittenAs(e, k, after[k])
        else k in before && after[k] == before[k])
    && (forall k :: k in before || HasKey(entries, k) ==> k in after)
  }

  ghost predicate HasKey(entries: seq<Entry>, k: string) {
    exists e :: e in entries && e.key == k
  }

  predicate WrittenAs(e: Entry, k: string, r: Record) {
    e.key == k && r.value == e.value && r.ttl == e.ttl
  }

  lemma MergedNext(before: map<string, Record>, entries: seq<Entry>, i: nat, after: map<string, Record>, now: int)
    requires i < |entries| && Merged(before, entries[..i], after)
    ensures Merged(before, entries[..i + 1], after[entries[i].key := Record(entries[i].value, now, entries[i].ttl)])
  {
    var e := entries[i];
    var next := after[e.key := Record(e.value, now, e.ttl)];
    assert entries[..i + 1] == entries[..i] + [e];
    assert e in entries[..i + 1] && WrittenAs(e, e.key, next[e.key]);
    forall k
      ensures HasKey(entries[..i + 1], k) <==> HasKey(entries[..i], k) || k == e.key
    {
    }
    forall k | k in next && k != e.key && HasKey(entries[..i], k)
      ensures exists x :: x in entries[..i + 1] && WrittenAs(x, k, next[k])
    {
      var x :| x in entries[..i] && WrittenAs(x, k, after[k]);
      assert x in entries[..i + 1];
    }
  }

  // A working store holds nothing but messages, so the full listing is the log's listing.
  lemma ListedAll(entries: map<string, Record>, all: seq<Message>, from: nat, now: int)
    requires Logs(entries, all, from) && OnlyMessages(entries)
    ensures forall e :: e in Listed(entries, "", now) <==> e in InOrder(all, from)
  {
    assert Listed(entries, "", now) == Listed(entries, PREFIX, now);
    ListedInOrder(entries, all, from, now);
  }

  lemma PromotedLog(before: map<string, Record>, entries: seq<Entry>, after: map<string, Record>,
                    log: seq<Message>, all: seq<Message>)
    requires log <= all && Logs(before, log, 0) && Merged(before, entries, after)
    requires forall e :: e in entries <==> e in InOrder(all, |log|)
    ensures Logs(after, all, 0)
  {
    hide Key;
    forall i | 0 <= i < |all|
      ensures Key(i) in after && after[Key(i)].value == Msg(all[i]) && after[Key(i)].ttl == 0
    {
      PromotedKey(before, entries, after, log, all, i);
    }
    forall k | k in after && HasPrefix(k, PREFIX) && after[k].value.Msg?
      ensures exists i :: 0 <= i < |all| && k == Key(i)
    {
      PromotedOnly(before, entries, after, log, all, k);
    }
  }

  lemma PromotedOnly(before: map<string, Record>, entries: seq<Entry>, after: map<string, Record>,
                     log: seq<Message>, all: seq<Message>, k: string)
    requires log <= all && Logs(before, log, 0) && Merged(before, entries, after)
    requires forall e :: e in entries <==> e in InOrder(all, |log|)
    requires k in after && HasPrefix(k, PREFIX) && after[k].value.Msg?
    ensures exists i :: 0 <= i < |all| && k == Key(i)
  {
    hide Key;
    if HasKey(entries, k) {
      var e :| e in entries && WrittenAs(e, k, after[k]);
      var j := IndexInOrder(all, |log|, e);
    } else {
      var i :| 0 <= i < |log| && k == Key(i);
    }
  }

  lemma IndexInOrder(all: seq<Message>, from: nat, e: Entry) returns (i: nat)
    requires from <= |all| && e in InOrder(all, from)
    ensures from <= i < |all| && e == Entry(Key(i), Msg(all[i]), 0)
  {
    var j :| 0 <= j < |all| - from && InOrder(all, from)[j] == e;
    i := from + j;
  }

  // Keys of new messages are written, keys of old ones are not touched.
  lemma PromotedKey(before: map<string, Record>, entries: seq<Entry>, after: map<string, Record>,
                    log: seq<Message>, all: seq<Message>, i: nat)
    requires log <= all && Logs(before, log, 0) && Merged(before, entries, after) && i < |all|
    requires forall e :: e in entries <==> e in InOrder(all, |log|)
    ensures Key(i) in after && after[Key(i)].value == Msg(all[i]) && after[Key(i)].ttl == 0
  {
    hide Key;
    if i >= |log| {
      assert InOrder(all, |log|)[i - |log|] in entries;
    }
    if HasKey(entries, Key(i)) {
      var e :| e in entries && WrittenAs(e, Key(i), after[Key(i)]);
      var j := IndexInOrder(all, |log|, e);
      if j != i {
        KeysDiffer(j, i);
      }
    }
  }

  // storeAndPromoteMessages
  method StoreAndPromote(session: MapStore, reqMsgs: seq<Message>, respMsgs: seq<Message>, sessionMsgCount: nat,
                         now: int,
                         ghost log: seq<Message>)
    requires Logs(session.entries, log, 0) && sessionMsgCount == |log|
    modifies session
    ensures Logs(session.entries, log + reqMsgs + respMsgs, 0)
  {
    hide Key, Logs;
    var working := new MapStore();
    EmptyLogs(log);
    var idx := WriteMessages(working, reqMsgs, sessionMsgCount, now, log, |log|);
    idx := WriteMessages(working, respMsgs, idx, now, log + reqMsgs, |log|);
    PromoteToSession(working, session, now, log, log + reqMsgs + respMsgs);
  }

  lemma EmptyLogs(log: seq<Message>)
    ensures Logs(map[], log, |log|)
  {
  }

  // The messages of one run of the agent.
  datatype Turn = Turn(req: seq<Message>, resp: seq<Message>)

  ghost function Transcript(turns: seq<Turn>): seq<Message> {
    if turns == [] then []
    else
      var last := |turns| - 1;
      Transcript(turns[..last]) + turns[last].req + turns[last].resp
  }

  // One run after the other, with any compressor, each counting the session first and
  // storing its messages at the end: what is read back afterwards is the whole transcript,
  // up to a million messages. Values of other types may be around under the same prefix.
  method Conversation(session: MapStore, turns: seq<Turn>, times: seq<int>,
                      compressor: Option<seq<Message> -> Option<seq<Message>>>, end: int)
    returns (history: seq<Message>)
    requires Logs(session.entries, [], 0) && |times| == |turns|
    modifies session
    ensures |Transcript(turns)| <= 1_000_000 ==> history == Transcript(turns)
    ensures |history| == |Transcript(turns)|
  {
    hide Logs;
    var i := 0;
    assert turns[..0] == [];
    while i < |turns|
      invariant i <= |turns|
      invariant Logs(session.entries, Transcript(turns[..i]), 0)
    {
      ghost var log := Transcript(turns[..i]);
      var msgs, count := LoadAndCompress(session, times[i], compressor, log);
      StoreAndPromote(session, turns[i].req, turns[i].resp, count, times[i], log);
      assert turns[..i + 1][..i] == turns[..i];
      i := i + 1;
    }
    assert turns[..i] == turns;
    history := LoadSessionMessages(session, end, Transcript(turns));
  }
}
