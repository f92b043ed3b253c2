// The sliding-window rate limiter (largemodel/ratelimit.go): a pruned log that
// decides like the full history.
module RateLimit {
  const MINUTE := 60_000_000_000

  datatype TokenEntry = TokenEntry(at: int, tokens: int)

  ghost predicate Sorted(s: seq<int>) {
    forall i, j :: 0 <= i < j < |s| ==> s[i] <= s[j]
  }

  ghost function Times(s: seq<TokenEntry>): seq<int> {
    seq(|s|, i requires 0 <= i < |s| => s[i].at)
  }

  // The entries of a history that fall into the window starting at `start`.
  function Window(s: seq<int>, start: int): seq<int> {
    if s == [] then []
    else if s[0] < start then Window(s[1..], start)
    else [s[0]] + Window(s[1..], start)
  }

  function TokenWindow(s: seq<TokenEntry>, start: int): seq<TokenEntry> {
    if s == [] then []
    else if s[0].at < start then TokenWindow(s[1..], start)
    else [s[0]] + TokenWindow(s[1..], start)
  }

  function TokenSum(s: seq<TokenEntry>): int {
    if s == [] then 0 else TokenSum(s[..|s| - 1]) + s[|s| - 1].tokens
  }

  // ----- windows of sorted histories are suffixes -----

  lemma {:induction false} WindowIsSuffix(s: seq<int>, start: int, k: nat)
    requires k <= |s|
    requires forall i :: 0 <= i < k ==> s[i] < start
    requires forall i :: k <= i < |s| ==> s[i] >= start
    ensures Window(s, start) == s[k..]
  {
    if s != [] {
      if k > 0 {
        WindowIsSuffix(s[1..], start, k - 1);
      } else {
        WindowIsSuffix(s[1..], start, 0);
        assert s == [s[0]] + s[1..];
      }
    }
  }

  lemma {:induction false} TokenWindowIsSuffix(s: seq<TokenEntry>, start: int, k: nat)
    requires k <= |s|
    requires forall i :: 0 <= i < k ==> s[i].at < start
    requires forall i :: k <= i < |s| ==> s[i].at >= start
    ensures TokenWindow(s, start) == s[k..]
  {
    if s != [] {
      if k > 0 {
        TokenWindowIsSuffix(s[1..], start, k - 1);
      } else {
        TokenWindowIsSuffix(s[1..], start, 0);
        assert s == [s[0]] + s[1..];
      }
    }
  }

  // A log agrees with a history up to entries older than `horizon`.
  ghost predicate Covers(log: seq<int>, history: seq<int>, horizon: int) {
    |log| <= |history| && log == history[|history| - |log|..]
    && forall i :: 0 <= i < |history| - |log| ==> history[i] < horizon
  }

  ghost predicate TokenCovers(log: seq<TokenEntry>, history: seq<TokenEntry>, horizon: int) {
    |log| <= |history| && log == history[|history| - |log|..]
    && forall i :: 0 <= i < |history| - |log| ==> history[i].at < horizon
  }

  method PruneTimestamps(entries: seq<int>, start: int) returns (kept: seq<int>)
    requires Sorted(entries)
    ensures kept == Window(entries, start)
    ensures exists k :: 0 <= k <= |entries| && kept == entries[k..] && forall i :: 0 <= i < k ==> entries[i] < start
  {
    var i := 0;
    while i < |entries| && entries[i] < start
      invariant i <= |entries| && forall j :: 0 <= j < i ==> entries[j] < start
    {
      i := i + 1;
    }
    WindowIsSuffix(entries, start, i);
    kept := entries[i..];
  }

  method PruneTokenEntries(entries: seq<TokenEntry>, start: int) returns (kept: seq<TokenEntry>)
    requires forall i, j :: 0 <= i < j < |entries| ==> entries[i].at <= entries[j].at
    ensures kept == TokenWindow(entries, start)
    ensures exists k :: 0 <= k <= |entries| && kept == entries[k..] && forall i :: 0 <= i < k ==> entries[i].at < start
  {
    var i := 0;
    while i < |entries| && entries[i].at < start
      invariant i <= |entries| && forall j :: 0 <= j < i ==> entries[j].at < start
    {
      i := i + 1;
    }
    TokenWindowIsSuffix(entries, start, i);
    kept := entries[i..];
  }

  // The pruned log has the same window as the full history.
  lemma CoveredWindow(log: seq<int>, history: seq<int>, horizon: int, start: int)
    requires Sorted(history) && Covers(log, history, horizon) && horizon <= start
    ensures Window(log, start) == Window(history, start)
    ensures Sorted(log) && Covers(Window(log, start), history, start)
  {
    var k := FirstAtLeast(history, start);
    var dropped := |history| - |log|;
    WindowIsSuffix(history, start, k);
    assert k == |history| || history[k] >= start;
    WindowIsSuffix(log, start, k - dropped);
    assert log[k - dropped..] == history[k..];
  }

  ghost function FirstAtLeast(s: seq<int>, start: int): (k: nat)
    requires Sorted(s)
    ensures k <= |s| && (forall i :: 0 <= i < k ==> s[i] < start) && forall i :: k <= i < |s| ==> s[i] >= start
  {
    if s == [] || s[0] >= start then 0
    else
      var k := FirstAtLeast(s[1..], start);
      assert forall i :: 1 <= i < |s| ==> s[i] == s[1..][i - 1];
      k + 1
  }

  lemma TokenCoveredWindow(log: seq<TokenEntry>, history: seq<TokenEntry>, horizon: int, start: int)
    requires Sorted(Times(history)) && TokenCovers(log, history, horizon) && horizon <= start
    ensures TokenWindow(log, start) == TokenWindow(history, start)
    ensures TokenCovers(TokenWindow(log, start), history, start)
  {
    hide Sorted, Times, TokenWindow;
    var k := FirstEntry(history, start);
    var dropped := |history| - |log|;
    TokenWindowIsSuffix(history, start, k);
    assert k == |history| || history[k].at >= start;
    TokenWindowIsSuffix(log, start, k - dropped);
    assert log[k - dropped..] == history[k..];
  }

  // Where the window begins.
  lemma FirstEntry(history: seq<TokenEntry>, start: int) returns (k: nat)
    requires Sorted(Times(history))
    ensures k <= |history| && (forall i :: 0 <= i < k ==> history[i].at < start)
    ensures forall i :: k <= i < |history| ==> history[i].at >= start
  {
    k := FirstAtLeast(Times(history), start);
    assert forall i :: 0 <= i < |history| ==> Times(history)[i] == history[i].at;
  }

  // ----- the rate bound -----

  // Among any limit + 1 consecutive passes, the last comes more than a minute after the first.
  ghost predicate Spaced(passes: seq<int>, limit: nat) {
    forall i, j :: 0 <= i && j == i + limit && j < |passes| ==> passes[j] - passes[i] > MINUTE
  }

  lemma SortedSnoc(s: seq<int>, now: int)
    requires Sorted(s) && forall t :: t in s ==> t <= now
    ensures Sorted(s + [now])
  {
    forall i | 0 <= i < |s|
      ensures s[i] <= now
    {
      assert s[i] in s;
    }
  }

  lemma TimesSnoc(s: seq<TokenEntry>, e: TokenEntry)
    requires Sorted(Times(s)) && forall x :: x in s ==> x.at <= e.at
    ensures Sorted(Times(s + [e]))
  {
    assert Times(s + [e]) == Times(s) + [e.at];
    forall t | t in Times(s)
      ensures t <= e.at
    {
      var i :| 0 <= i < |s| && Times(s)[i] == t;
      assert s[i] in s;
    }
    SortedSnoc(Times(s), e.at);
  }

  lemma PassKeepsSpaced(passes: seq<int>, limit: nat, now: int)
    requires Sorted(passes) && Spaced(passes, limit) && limit > 0
    requires forall t :: t in passes ==> t <= now
    requires |Window(passes, now - MINUTE)| < limit
    ensures Sorted(passes + [now]) && Spaced(passes + [now], limit)
  {
    var k := FirstAtLeast(passes, now - MINUTE);
    WindowIsSuffix(passes, now - MINUTE, k);
    SortedSnoc(passes, now);
    var next := passes + [now];
    forall i, j | 0 <= i && j == i + limit && j < |next|
      ensures next[j] - next[i] > MINUTE
    {
      if j == |passes| {
        assert i < k;
      }
    }
  }

  // How many passes fall into the closed interval [from, from + MINUTE].
  function CountIn(passes: seq<int>, from: int): nat {
    if passes == [] then 0
    else CountIn(passes[..|passes| - 1], from) + if from <= passes[|passes| - 1] <= from + MINUTE then 1 else 0
  }

  // Every interval of one minute contains at most `limit` passes.
  lemma {:induction false} IntervalBound(passes: seq<int>, limit: nat, from: int)
    requires Sorted(passes) && Spaced(passes, limit) && limit > 0
    ensures CountIn(passes, from) <= limit
  {
    var a := FirstAtLeast(passes, from);
    CountBelow(passes, from, a);
    if |passes| > a + limit {
      CountFrom(passes, from, a, a + limit);
    } else {
      CountSpan(passes, from, a);
    }
  }

  // Passes before index a lie before the interval.
  lemma {:induction false} CountBelow(passes: seq<int>, from: int, a: nat)
    requires a <= |passes| && forall i :: 0 <= i < a ==> passes[i] < from
    ensures CountIn(passes[..a], from) == 0
  {
    if a > 0 {
      assert passes[..a][..a - 1] == passes[..a - 1];
      CountBelow(passes, from, a - 1);
    }
  }

  lemma {:induction false} CountSpan(passes: seq<int>, from: int, a: nat)
    requires a <= |passes| && CountIn(passes[..a], from) == 0
    ensures CountIn(passes, from) <= |passes| - a
    decreases |passes|
  {
    var n := |passes|;
    if n > a {
      assert passes[..n - 1][..a] == passes[..a];
      CountSpan(passes[..n - 1], from, a);
    } else {
      assert passes[..a] == passes;
    }
  }

  // Passes from index b on lie after the interval.
  lemma {:induction false} CountFrom(passes: seq<int>, from: int, a: nat, b: nat)
    requires a <= b < |passes| && CountIn(passes[..a], from) == 0
    requires Sorted(passes) && passes[a] >= from && passes[b] - passes[a] > MINUTE
    ensures CountIn(passes, from) <= b - a
    decreases |passes|
  {
    var n := |passes|;
    if n - 1 > b {
      assert passes[..n - 1][..a] == passes[..a];
      CountFrom(passes[..n - 1], from, a, b);
      assert passes[n - 1] >= passes[b];
    } else {
      assert passes[..n - 1][..a] == passes[..a];
      CountSpan(passes[..n - 1], from, a);
    }
  }

  // ----- what a window holds, in plain terms -----

  // How many entries are not older than `start`.
  ghost function Since(s: seq<int>, start: int): nat {
    if s == [] then 0 else (if s[0] >= start then 1 else 0) + Since(s[1..], start)
  }

  // The tokens recorded from `start` on.
  ghost function TokensSince(s: seq<TokenEntry>, start: int): int {
    if s == [] then 0 else (if s[0].at >= start then s[0].tokens else 0) + TokensSince(s[1..], start)
  }

  lemma {:induction false} WindowCount(s: seq<int>, start: int)
    ensures |Window(s, start)| == Since(s, start)
  {
    if s != [] {
      WindowCount(s[1..], start);
    }
  }

  lemma {:induction false} TokenWindowSum(s: seq<TokenEntry>, start: int)
    ensures TokenSum(TokenWindow(s, start)) == TokensSince(s, start)
  {
    if s != [] {
      TokenWindowSum(s[1..], start);
      TokenSumCons(s[0], TokenWindow(s[1..], start));
    }
  }

  lemma {:induction false} TokenSumCons(e: TokenEntry, s: seq<TokenEntry>)
    ensures TokenSum([e] + s) == e.tokens + TokenSum(s)
  {
    if s == [] {
      assert ([e] + s)[..0] == [];
    } else {
      assert ([e] + s)[..|s|] == [e] + s[..|s| - 1];
      TokenSumCons(e, s[..|s| - 1]);
    }
  }

  // ----- every run, on the full history -----

  // passes: requests that found room in the request window; admitted: those that were let
  // through, which a request refused for its tokens is not.
  datatype History = History(passes: seq<int>, admitted: seq<int>, spent: seq<TokenEntry>)

  datatype Event = Allow(now: int) | Record(tokens: int, now: int)

  predicate Full(requestsPerMin: int, h: History, now: int) {
    requestsPerMin > 0 && |Window(h.passes, now - MINUTE)| >= requestsPerMin
  }

  predicate Drained(tokensPerMin: int, h: History, now: int) {
    tokensPerMin > 0 && TokenSum(TokenWindow(h.spent, now - MINUTE)) >= tokensPerMin
  }

  function Step(requestsPerMin: int, tokensPerMin: int, h: History, e: Event): History {
    match e
    case Allow(now) =>
      if Full(requestsPerMin, h, now) then h
      else
        h.(passes := if requestsPerMin > 0 then h.passes + [now] else h.passes,
           admitted := if Drained(tokensPerMin, h, now) then h.admitted else h.admitted + [now])
    case Record(tokens, now) =>
      if tokensPerMin <= 0 || tokens <= 0 then h else h.(spent := h.spent + [TokenEntry(now, tokens)])
  }

  function After(requestsPerMin: int, tokensPerMin: int, trace: seq<Event>): History {
    if trace == [] then History([], [], [])
    else
      var last := |trace| - 1;
      Step(requestsPerMin, tokensPerMin, After(requestsPerMin, tokensPerMin, trace[..last]), trace[last])
  }

  ghost predicate Monotone(trace: seq<Event>) {
    forall i, j :: 0 <= i < j < |trace| ==> trace[i].now <= trace[j].now
  }

  lemma WindowSnoc(s: seq<int>, start: int, now: int)
    ensures |Window(s + [now], start)| == |Window(s, start)| + if now >= start then 1 else 0
    decreases s
  {
    if s == [] {
      assert s + [now] == [now];
    } else {
      assert (s + [now])[1..] == s[1..] + [now];
      WindowSnoc(s[1..], start, now);
    }
  }

  // Admitted requests are among the passes, in every window; without a token limit they are the passes.
  lemma {:induction false} AdmittedPassed(requestsPerMin: int, tokensPerMin: int, trace: seq<Event>)
    requires requestsPerMin > 0 && Monotone(trace)
    ensures Within(requestsPerMin, tokensPerMin, After(requestsPerMin, tokensPerMin, trace))
    ensures forall t :: t in After(requestsPerMin, tokensPerMin, trace).passes ==>
      trace != [] && t <= trace[|trace| - 1].now
  {
    if trace != [] {
      var n := |trace| - 1;
      AdmittedPassed(requestsPerMin, tokensPerMin, trace[..n]);
      var h, now := After(requestsPerMin, tokensPerMin, trace[..n]), trace[n].now;
      assert forall t :: t in h.passes ==> t <= now;
      hide Within, Step;
      WithinStep(requestsPerMin, tokensPerMin, h, trace[n]);
    }
  }

  ghost predicate Within(requestsPerMin: int, tokensPerMin: int, h: History) {
    && (forall from :: CountIn(h.admitted, from) <= CountIn(h.passes, from))
    && (tokensPerMin <= 0 ==> h.admitted == h.passes)
    && Sorted(h.passes) && (requestsPerMin > 0 ==> Spaced(h.passes, requestsPerMin))
  }

  lemma WithinStep(requestsPerMin: int, tokensPerMin: int, h: History, e: Event)
    requires requestsPerMin > 0 && Within(requestsPerMin, tokensPerMin, h) && forall t :: t in h.passes ==> t <= e.now
    ensures Within(requestsPerMin, tokensPerMin, Step(requestsPerMin, tokensPerMin, h, e))
    ensures forall t :: t in Step(requestsPerMin, tokensPerMin, h, e).passes ==> t <= e.now
  {
    hide Spaced, Sorted, Window, TokenWindow, TokenSum, CountIn, Full;
    if e.Allow? && !Full(requestsPerMin, h, e.now) {
      FullWindow(requestsPerMin, h, e.now);
      PassKeepsSpaced(h.passes, requestsPerMin, e.now);
      CountMore(h.admitted, h.passes, e.now);
    }
  }

  lemma CountMore(admitted: seq<int>, passes: seq<int>, now: int)
    requires forall from :: CountIn(admitted, from) <= CountIn(passes, from)
    ensures forall from :: CountIn(admitted + [now], from) <= CountIn(passes + [now], from)
    ensures forall from :: CountIn(admitted, from) <= CountIn(passes + [now], from)
  {
    hide CountIn;
    forall from
      ensures CountIn(admitted + [now], from) <= CountIn(passes + [now], from)
      ensures CountIn(admitted, from) <= CountIn(passes + [now], from)
    {
      CountSnoc(admitted, from, now);
      CountSnoc(passes, from, now);
    }
  }

  lemma CountSnoc(s: seq<int>, from: int, now: int)
    ensures CountIn(s + [now], from) == CountIn(s, from) + if from <= now <= from + MINUTE then 1 else 0
  {
    assert (s + [now])[..|s|] == s;
  }

  // Every interval of one minute contains at most `limit` admitted requests.
  lemma AdmittedBound(requestsPerMin: int, tokensPerMin: int, trace: seq<Event>, from: int)
    requires requestsPerMin > 0 && Monotone(trace)
    ensures CountIn(After(requestsPerMin, tokensPerMin, trace).admitted, from) <= requestsPerMin
  {
    AdmittedPassed(requestsPerMin, tokensPerMin, trace);
    IntervalBound(After(requestsPerMin, tokensPerMin, trace).passes, requestsPerMin, from);
  }

  // After every run, a refusal for the number of requests means that so many were admitted in the last minute.
  ghost predicate RefusesFairly(requestsPerMin: int, tokensPerMin: int) {
    forall trace: seq<Event>, now: int :: Monotone(trace) && (trace != [] ==> trace[|trace| - 1].now <= now) ==>
      var h := After(requestsPerMin, tokensPerMin, trace);
      Full(requestsPerMin, h, now) ==> |Window(h.admitted, now - MINUTE)| >= requestsPerMin
  }

  // That is so exactly when tokens are not limited: otherwise requests refused for their
  // tokens can fill the window.
  lemma RefusesFairlyIff(requestsPerMin: int, tokensPerMin: int)
    requires requestsPerMin > 0
    ensures RefusesFairly(requestsPerMin, tokensPerMin) <==> tokensPerMin <= 0
  {
    hide Full;
    if tokensPerMin <= 0 {
      forall trace: seq<Event>, now: int |
        Monotone(trace) && Full(requestsPerMin, After(requestsPerMin, tokensPerMin, trace), now)
        ensures |Window(After(requestsPerMin, tokensPerMin, trace).admitted, now - MINUTE)| >= requestsPerMin
      {
        AdmittedPassed(requestsPerMin, tokensPerMin, trace);
        FullWindow(requestsPerMin, After(requestsPerMin, tokensPerMin, trace), now);
      }
    } else {
      var trace := Burst(tokensPerMin, requestsPerMin);
      BurstFills(requestsPerMin, tokensPerMin, requestsPerMin);
      BurstMonotone(tokensPerMin, requestsPerMin);
      hide After, Window;
      assert Full(requestsPerMin, After(requestsPerMin, tokensPerMin, trace), LATER);
    }
  }

  lemma FullWindow(requestsPerMin: int, h: History, now: int)
    requires requestsPerMin > 0
    ensures Full(requestsPerMin, h, now) <==> |Window(h.passes, now - MINUTE)| >= requestsPerMin
  {
  }

  const LATER := MINUTE + 1

  // One request whose token usage is recorded more than a minute later, then k requests at once.
  function Burst(tokens: int, k: nat): seq<Event> {
    if k == 0 then [Allow(0), Record(tokens, LATER)] else Burst(tokens, k - 1) + [Allow(LATER)]
  }

  lemma {:induction false} BurstMonotone(tokens: int, k: nat)
    ensures |Burst(tokens, k)| == k + 2 && Monotone(Burst(tokens, k))
    ensures forall i :: 1 <= i < k + 2 ==> Burst(tokens, k)[i].now == LATER
    ensures Burst(tokens, k)[0].now == 0
  {
    if k > 0 {
      BurstMonotone(tokens, k - 1);
    }
  }

  lemma {:induction false} BurstFills(requestsPerMin: int, tokensPerMin: int, k: nat)
    requires tokensPerMin > 0 && k <= requestsPerMin && requestsPerMin > 0
    ensures var h := After(requestsPerMin, tokensPerMin, Burst(tokensPerMin, k));
      && |Window(h.passes, LATER - MINUTE)| == k && h.spent == [TokenEntry(LATER, tokensPerMin)]
      && |Window(h.admitted, LATER - MINUTE)| == 0
      && (k == requestsPerMin ==> Full(requestsPerMin, h, LATER))
  {
    if k == 0 {
      BurstStarts(requestsPerMin, tokensPerMin);
    } else {
      BurstFills(requestsPerMin, tokensPerMin, k - 1);
      var before := Burst(tokensPerMin, k - 1);
      assert Burst(tokensPerMin, k) == before + [Allow(LATER)];
      hide *;
      AfterSnoc(requestsPerMin, tokensPerMin, before, Allow(LATER));
      BurstGrows(requestsPerMin, tokensPerMin, After(requestsPerMin, tokensPerMin, before));
    }
  }

  lemma AfterSnoc(requestsPerMin: int, tokensPerMin: int, trace: seq<Event>, e: Event)
    ensures After(requestsPerMin, tokensPerMin, trace + [e]) ==
      Step(requestsPerMin, tokensPerMin, After(requestsPerMin, tokensPerMin, trace), e)
  {
    assert (trace + [e])[..|trace|] == trace;
  }

  // One more request at that time passes and is refused for its tokens.
  lemma BurstGrows(requestsPerMin: int, tokensPerMin: int, h: History)
    requires tokensPerMin > 0 && requestsPerMin > 0 && |Window(h.passes, LATER - MINUTE)| < requestsPerMin
    requires h.spent == [TokenEntry(LATER, tokensPerMin)]
    ensures var t := Step(requestsPerMin, tokensPerMin, h, Allow(LATER));
      && |Window(t.passes, LATER - MINUTE)| == |Window(h.passes, LATER - MINUTE)| + 1
      && t.spent == h.spent && t.admitted == h.admitted
      && (|Window(t.passes, LATER - MINUTE)| == requestsPerMin ==> Full(requestsPerMin, t, LATER))
  {
    DrainedByOne(tokensPerMin, h);
    hide Window, Drained;
    WindowSnoc(h.passes, LATER - MINUTE, LATER);
  }

  lemma DrainedByOne(tokensPerMin: int, h: History)
    requires tokensPerMin > 0 && h.spent == [TokenEntry(LATER, tokensPerMin)]
    ensures Drained(tokensPerMin, h, LATER)
  {
    TokenWindowIsSuffix(h.spent, LATER - MINUTE, 0);
    assert h.spent[0..] == h.spent && h.spent[..0] == [];
  }

  lemma BurstStarts(requestsPerMin: int, tokensPerMin: int)
    requires tokensPerMin > 0 && requestsPerMin > 0
    ensures After(requestsPerMin, tokensPerMin, Burst(tokensPerMin, 0)) ==
      History([0], [0], [TokenEntry(LATER, tokensPerMin)])
    ensures |Window([0], LATER - MINUTE)| == 0
  {
    var trace := Burst(tokensPerMin, 0);
    assert trace[..1] == [Allow(0)] && trace[..1][..0] == [];
    assert After(requestsPerMin, tokensPerMin, []) == History([], [], []);
    assert After(requestsPerMin, tokensPerMin, [Allow(0)]) == History([0], [0], []) by {
      assert [Allow(0)][..0] == [];
    }
  }

  // ----- the middleware -----

  class RateLimitMiddleware {
    const requestsPerMin: int
    const tokensPerMin: int
    var requestLog: seq<int>
    var tokenLog: seq<TokenEntry>
    // the full history and the latest clock reading
    ghost var passes: seq<int>
    ghost var admitted: seq<int>
    ghost var spent: seq<TokenEntry>
    ghost var clock: int

    ghost function Past(): History
      reads this
    {
      History(passes, admitted, spent)
    }

    ghost predicate Valid()
      reads this
    {
      RequestsOk(passes, requestLog, requestsPerMin, clock) && TokensOk(spent, tokenLog, clock)
    }

    constructor (requestsPerMin: int, tokensPerMin: int, now: int)
      ensures Valid() && Past() == History([], [], []) && clock == now
      ensures this.requestsPerMin == requestsPerMin && this.tokensPerMin == tokensPerMin
    {
      this.requestsPerMin, this.tokensPerMin := requestsPerMin, tokensPerMin;
      requestLog, tokenLog, passes, admitted, spent, clock := [], [], [], [], [], now;
    }

    // The decision depends on the full history only. A request refused for its tokens
    // has already taken a place in the request window.
    method AllowRequest(now: int) returns (ok: bool)
      requires Valid() && now >= clock
      modifies this
      ensures Valid() && clock == now
      ensures var full := requestsPerMin > 0 && Since(old(passes), now - 60_000_000_000) >= requestsPerMin;
        var drained := tokensPerMin > 0 && TokensSince(old(spent), now - 60_000_000_000) >= tokensPerMin;
        && (ok <==> !full && !drained) && spent == old(spent)
        && passes == (if requestsPerMin > 0 && !full then old(passes) + [now] else old(passes))
        && admitted == if ok then old(admitted) + [now] else old(admitted)
      ensures Past() == Step(requestsPerMin, tokensPerMin, old(Past()), Allow(now))
    {
      hide RequestsOk, TokensOk, Window, TokenWindow, TokenSum, Sorted, Times, Since, TokensSince;
      WindowCount(passes, now - MINUTE);
      TokenWindowSum(spent, now - MINUTE);
      if requestsPerMin > 0 {
        RequestWindow(passes, requestLog, requestsPerMin, clock, now);
        requestLog := PruneTimestamps(requestLog, now - MINUTE);
        if |requestLog| >= requestsPerMin {
          TokensLater(spent, tokenLog, clock, now);
          clock := now;
          return false;
        }
        RequestPass(passes, requestLog, requestsPerMin, now);
        requestLog := requestLog + [now];
        passes := passes + [now];
      } else {
        RequestsLater(passes, requestLog, requestsPerMin, clock, now);
      }
      if tokensPerMin > 0 {
        TokensWindow(spent, tokenLog, clock, now);
        tokenLog := PruneTokenEntries(tokenLog, now - MINUTE);
        clock := now;
        var total := SumTokens(tokenLog);
        if total >= tokensPerMin {
          return false;
        }
      } else {
        TokensLater(spent, tokenLog, clock, now);
        clock := now;
      }
      admitted := admitted + [now];
      return true;
    }

    method RecordTokens(tokens: int, now: int)
      requires Valid() && now >= clock
      modifies this
      ensures Valid() && clock == now
      ensures Past() == Step(requestsPerMin, tokensPerMin, old(Past()), Record(tokens, now))
      ensures passes == old(passes) && admitted == old(admitted)
      ensures spent == if tokensPerMin > 0 && tokens > 0 then old(spent) + [TokenEntry(now, tokens)] else old(spent)
    {
      hide RequestsOk, TokensOk, Window, TokenWindow, TokenSum, Sorted, Times;
      RequestsLater(passes, requestLog, requestsPerMin, clock, now);
      TokensLater(spent, tokenLog, clock, now);
      clock := now;
      if tokensPerMin <= 0 || tokens <= 0 {
        return;
      }
      TokensSpend(spent, tokenLog, TokenEntry(now, tokens));
      tokenLog := tokenLog + [TokenEntry(now, tokens)];
      spent := spent + [TokenEntry(now, tokens)];
    }
  }

  // The request log at time `clock` stands for the history of passes.
  ghost predicate RequestsOk(passes: seq<int>, log: seq<int>, limit: int, clock: int) {
    && Sorted(passes) && (forall t :: t in passes ==> t <= clock)
    && Covers(log, passes, clock - MINUTE)
    && (limit > 0 ==> Spaced(passes, limit))
  }

  ghost predicate TokensOk(spent: seq<TokenEntry>, log: seq<TokenEntry>, clock: int) {
    && Sorted(Times(spent)) && (forall e :: e in spent ==> e.at <= clock)
    && TokenCovers(log, spent, clock - MINUTE)
  }

  lemma RequestsLater(passes: seq<int>, log: seq<int>, limit: int, clock: int, now: int)
    requires RequestsOk(passes, log, limit, clock) && clock <= now
    ensures RequestsOk(passes, log, limit, now)
  {
  }

  lemma RequestWindow(passes: seq<int>, log: seq<int>, limit: int, clock: int, now: int)
    requires RequestsOk(passes, log, limit, clock) && clock <= now
    ensures Sorted(log) && Window(log, now - MINUTE) == Window(passes, now - MINUTE)
    ensures RequestsOk(passes, Window(log, now - MINUTE), limit, now)
  {
    hide Window, Spaced;
    CoveredWindow(log, passes, clock - MINUTE, now - MINUTE);
  }

  lemma RequestPass(passes: seq<int>, log: seq<int>, limit: int, now: int)
    requires RequestsOk(passes, log, limit, now) && log == Window(passes, now - MINUTE) && |log| < limit
    ensures RequestsOk(passes + [now], log + [now], limit, now)
  {
    hide Window, Spaced;
    PassKeepsSpaced(passes, limit, now);
  }

  lemma TokensLater(spent: seq<TokenEntry>, log: seq<TokenEntry>, clock: int, now: int)
    requires TokensOk(spent, log, clock) && clock <= now
    ensures TokensOk(spent, log, now)
  {
  }

  lemma TokensWindow(spent: seq<TokenEntry>, log: seq<TokenEntry>, clock: int, now: int)
    requires TokensOk(spent, log, clock) && clock <= now
    ensures forall i, j :: 0 <= i < j < |log| ==> log[i].at <= log[j].at
    ensures TokenWindow(log, now - MINUTE) == TokenWindow(spent, now - MINUTE)
    ensures TokensOk(spent, TokenWindow(log, now - MINUTE), now)
  {
    hide TokenWindow;
    TokenCoveredWindow(log, spent, clock - MINUTE, now - MINUTE);
    TimesOrdered(spent, log);
  }

  lemma TokensSpend(spent: seq<TokenEntry>, log: seq<TokenEntry>, e: TokenEntry)
    requires TokensOk(spent, log, e.at)
    ensures TokensOk(spent + [e], log + [e], e.at)
  {
    TimesSnoc(spent, e);
    hide Sorted, Times;
  }

  lemma TimesOrdered(history: seq<TokenEntry>, log: seq<TokenEntry>)
    requires Sorted(Times(history)) && |log| <= |history| && log == history[|history| - |log|..]
    ensures forall i, j :: 0 <= i < j < |log| ==> log[i].at <= log[j].at
  {
    var d := |history| - |log|;
    forall i, j | 0 <= i < j < |log|
      ensures log[i].at <= log[j].at
    {
      assert Times(history)[d + i] <= Times(history)[d + j];
    }
  }

  method SumTokens(entries: seq<TokenEntry>) returns (total: int)
    ensures total == TokenSum(entries)
  {
    total := 0;
    var i := 0;
    while i < |entries|
      invariant i <= |entries| && total == TokenSum(entries[..i])
    {
      assert entries[..i + 1][..i] == entries[..i];
      total := total + entries[i].tokens;
      i := i + 1;
    }
    assert entries[..i] == entries;
  }
}
