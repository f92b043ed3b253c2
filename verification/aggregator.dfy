// Aggregation of terminal results by sorted node ID (orchestrate/aggregator.go).
module Aggregators {
  import opened Types
  import opened Lex
  import Meaning

  // keys lists the set s in string order.
  ghost predicate KeyOrder(keys: seq<string>, s: set<string>) {
    SortedBy(keys, Self) && multiset(keys) == multiset(s)
  }

  lemma KeyOrderUnique(a: seq<string>, b: seq<string>, s: set<string>)
    requires KeyOrder(a, s) && KeyOrder(b, s)
    ensures a == b
  {
    SortedUnique(a, b, Self);
  }

  lemma {:induction false} KeyOrderExists(s: set<string>)
    ensures exists keys :: KeyOrder(keys, s)
  {
    if s == {} {
      assert KeyOrder([], s);
    } else {
      var k :| k in s;
      KeyOrderExists(s - {k});
      var rest :| KeyOrder(rest, s - {k});
      InsertBySorted(k, rest, Self);
      assert multiset(s) == multiset(s - {k}) + multiset{k};
      assert KeyOrder(InsertBy(k, rest, Self), s);
    }
  }

  // Messages are concatenated; session and metadata come from the first response with a session.
  function Merge(acc: Response, v: Response): Response {
    if acc.sessionId == "" then Response(acc.messages + v.messages, v.sessionId, v.metadata)
    else Response(acc.messages + v.messages, acc.sessionId, acc.metadata)
  }

  function ConcatFold(keys: seq<string>, results: map<string, Response>): Response
    requires forall k :: k in keys ==> k in results
  {
    if keys == [] then Response([], "", "")
    else
      var last := |keys| - 1;
      Merge(ConcatFold(keys[..last], results), results[keys[last]])
  }

  lemma KeyOrderMembers(keys: seq<string>, s: set<string>)
    requires KeyOrder(keys, s)
    ensures forall k :: k in keys <==> k in s
  {
    forall k
      ensures k in keys <==> k in s
    {
      assert k in multiset(keys) <==> k in multiset(s);
    }
  }

  // The response of the default aggregator.
  ghost function ConcatOutput(results: map<string, Response>): Response {
    KeyOrderExists(results.Keys);
    var keys :| KeyOrder(keys, results.Keys);
    KeyOrderMembers(keys, results.Keys);
    ConcatFold(keys, results)
  }

  // Ranging over a map collects its keys in some order.
  method CollectKeys(all: set<string>) returns (keys: seq<string>)
    ensures multiset(keys) == multiset(all)
  {
    var left := all;
    keys := [];
    while left != {}
      invariant left <= all
      invariant multiset(keys) == multiset(all - left)
      decreases left
    {
      var k :| k in left;
      assert all - (left - {k}) == (all - left) + {k};
      assert multiset((all - left) + {k}) == multiset(all - left) + multiset{k};
      keys := keys + [k];
      left := left - {k};
    }
    assert all - left == all;
  }

  // keys lists the keys of the map, each once, in string order.
  ghost predicate Ascending(keys: seq<string>, results: map<string, Response>) {
    && (forall k :: k in keys <==> k in results)
    && forall i, j :: 0 <= i < j < |keys| ==> Lt(keys[i], keys[j])
  }

  ghost function Present(results: map<string, Response>): Upstream {
    map k | k in results :: Some(results[k])
  }

  // The messages are joined in the order of the keys. Session and metadata are those of
  // the first response with a session; without any session, the metadata are the last one's.
  ghost predicate OutputIs(resp: Response, keys: seq<string>, results: map<string, Response>)
    requires forall k :: k in keys ==> k in results
  {
    && (exists cuts :: Meaning.Joined(resp.messages, keys, Present(results), cuts))
    && (forall i :: 0 <= i < |keys| && results[keys[i]].sessionId != ""
                    && (forall j :: 0 <= j < i ==> results[keys[j]].sessionId == "") ==>
          resp.sessionId == results[keys[i]].sessionId && resp.metadata == results[keys[i]].metadata)
    && ((forall i :: 0 <= i < |keys| ==> results[keys[i]].sessionId == "") ==>
          resp.sessionId == "" && resp.metadata == if keys == [] then "" else results[keys[|keys| - 1]].metadata)
  }

  lemma KeyOrderAscends(keys: seq<string>, results: map<string, Response>)
    requires KeyOrder(keys, results.Keys)
    ensures Ascending(keys, results)
  {
    KeyOrderMembers(keys, results.Keys);
    forall i, j | 0 <= i < j < |keys|
      ensures Lt(keys[i], keys[j])
    {
      if keys[i] == keys[j] {
        CountedTwice(keys, i, j);
      }
      assert Le(Self(keys[i]), Self(keys[j]));
    }
  }

  lemma {:induction false} FoldMessages(keys: seq<string>, n: nat, results: map<string, Response>)
    returns (cuts: seq<nat>)
    requires n <= |keys| && forall k :: k in keys ==> k in results
    ensures Meaning.Joined(ConcatFold(keys[..n], results).messages, keys[..n],
                           Present(results), cuts)
  {
    var up := Present(results);
    if n == 0 {
      cuts := [0];
    } else {
      cuts := FoldMessages(keys, n - 1, results);
      assert keys[..n][..n - 1] == keys[..n - 1];
      var before, after := ConcatFold(keys[..n - 1], results), ConcatFold(keys[..n], results);
      assert after == Merge(before, results[keys[n - 1]]);
      hide Meaning.Joined, ConcatFold;
      Meaning.JoinedNext(before.messages, keys, n - 1, up, cuts, after.messages);
      cuts := cuts + [|after.messages|];
    }
  }

  lemma {:induction false} FoldSession(keys: seq<string>, results: map<string, Response>)
    requires forall k :: k in keys ==> k in results
    ensures var resp := ConcatFold(keys, results);
      && (forall i :: 0 <= i < |keys| && results[keys[i]].sessionId != ""
                      && (forall j :: 0 <= j < i ==> results[keys[j]].sessionId == "") ==>
            resp.sessionId == results[keys[i]].sessionId && resp.metadata == results[keys[i]].metadata)
      && ((forall i :: 0 <= i < |keys| ==> results[keys[i]].sessionId == "") ==>
            resp.sessionId == "" && resp.metadata == if keys == [] then "" else results[keys[|keys| - 1]].metadata)
      && (resp.sessionId == "" ==> forall i :: 0 <= i < |keys| ==> results[keys[i]].sessionId == "")
  {
    if keys != [] {
      var n := |keys| - 1;
      FoldSession(keys[..n], results);
      assert forall i :: 0 <= i < n ==> keys[..n][i] == keys[i];
    }
  }

  // The output of the default aggregator.
  lemma ConcatMeans(results: map<string, Response>)
    ensures exists keys :: Ascending(keys, results) && OutputIs(ConcatOutput(results), keys, results)
  {
    hide KeyOrder, ConcatOutput, ConcatFold, Lt, Meaning.Joined, Ascending;
    KeyOrderExists(results.Keys);
    var keys :| KeyOrder(keys, results.Keys);
    KeyOrderAscends(keys, results);
    ConcatOutputIs(results, keys);
    assert keys[..|keys|] == keys;
    var cuts := FoldMessages(keys, |keys|, results);
    FoldSession(keys, results);
  }

  method ConcatMessages(results: map<string, Response>) returns (resp: Response)
    ensures resp == ConcatOutput(results)
    ensures exists keys :: Ascending(keys, results) && OutputIs(resp, keys, results)
  {
    hide ConcatOutput, Lt, OutputIs, Ascending;
    ConcatMeans(results);
    var keys := CollectKeys(results.Keys);
    SortBySorted(keys, Self);
    var sorted := SortBy(keys, Self);
    KeyOrderMembers(sorted, results.Keys);
    resp := Response([], "", "");
    var i := 0;
    while i < |sorted|
      invariant i <= |sorted|
      invariant resp == ConcatFold(sorted[..i], results)
    {
      assert sorted[..i + 1][..i] == sorted[..i];
      resp := Merge(resp, results[sorted[i]]);
      i := i + 1;
    }
    assert sorted[..i] == sorted;
    ConcatOutputIs(results, sorted);
  }

  lemma ConcatOutputIs(results: map<string, Response>, keys: seq<string>)
    requires KeyOrder(keys, results.Keys)
    ensures (forall k :: k in keys ==> k in results) && ConcatOutput(results) == ConcatFold(keys, results)
  {
    KeyOrderMembers(keys, results.Keys);
    forall ks | KeyOrder(ks, results.Keys)
      ensures ks == keys
    {
      KeyOrderUnique(ks, keys, results.Keys);
    }
    KeyOrderExists(results.Keys);
  }
}
