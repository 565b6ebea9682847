/** Download tokens, the cache of finished downloads, and what completion handlers are told. */
module Downloads {

  import opened Options

  const CACHE_SIZE: nat := 10
  const GENERAL_ERROR: int := 200
  const ARGS_ERROR: int := 202
  const TASK_FAILED: int := 1000
  const TASK_NOT_EXISTS: int := 1001
  const CANCEL_CODE: int := 1002
  const CANCEL_STATE: int := 2
  const DONE_STATE: int := 0   // stored with a success and never reported

  // ---------------------------------------------------------------- tokens

  function Digit(d: nat): char
    requires d < 10
  {
    "0123456789"[d]
  }

  function Decimal(n: nat): string {
    if n < 10 then [Digit(n)] else Decimal(n / 10) + [Digit(n % 10)]
  }

  /** "time-random-counter", the counter last. */
  function Token(now: nat, random: nat, counter: nat): string {
    Decimal(now) + "-" + Decimal(random) + "-" + Decimal(counter)
  }

  function DigitValue(c: char): nat {
    if '0' <= c <= '9' then c as int - '0' as int else 0
  }

  /** Reads the counter back: the number after the last dash. */
  function CounterOf(token: string): nat {
    if token == [] || token[|token| - 1] == '-' then 0
    else 10 * CounterOf(token[..|token| - 1]) + DigitValue(token[|token| - 1])
  }

  lemma DigitReadsBack(d: nat)
    requires d < 10
    ensures Digit(d) != '-' && DigitValue(Digit(d)) == d
  {
  }

  lemma CounterOfLonger(s: string, d: nat)
    requires d < 10
    ensures CounterOf(s + [Digit(d)]) == 10 * CounterOf(s) + d
  {
    DigitReadsBack(d);
    assert (s + [Digit(d)])[..|s|] == s;
  }

  lemma {:induction false} CounterReadsBack(prefix: string, n: nat)
    ensures CounterOf(prefix + "-" + Decimal(n)) == n
    decreases n
  {
    if n < 10 {
      CounterOfLonger(prefix + "-", n);
    } else {
      CounterReadsBack(prefix, n / 10);
      assert prefix + "-" + Decimal(n) == prefix + "-" + Decimal(n / 10) + [Digit(n % 10)];
      CounterOfLonger(prefix + "-" + Decimal(n / 10), n % 10);
    }
  }

  /** What stands before the last dash; nothing if there is none. */
  function BeforeDash(token: string): string {
    if token == [] then []
    else if token[|token| - 1] == '-' then token[..|token| - 1]
    else BeforeDash(token[..|token| - 1])
  }

  lemma {:induction false} BeforeDashOf(prefix: string, n: nat)
    ensures BeforeDash(prefix + "-" + Decimal(n)) == prefix
    decreases n
  {
    var s := prefix + "-" + (if n < 10 then "" else Decimal(n / 10));
    DigitReadsBack(n % 10);
    assert prefix + "-" + Decimal(n) == s + [Digit(n % 10)];
    assert (s + [Digit(n % 10)])[..|s|] == s;
    if n >= 10 {
      BeforeDashOf(prefix, n / 10);
    } else {
      assert s == prefix + "-" && s[..|s| - 1] == prefix;
    }
  }

  lemma {:induction false} DecimalReadsBack(n: nat)
    ensures CounterOf(Decimal(n)) == n
    decreases n
  {
    if n < 10 {
      assert Decimal(n) == "" + [Digit(n)];
      CounterOfLonger("", n);
    } else {
      DecimalReadsBack(n / 10);
      CounterOfLonger(Decimal(n / 10), n % 10);
    }
  }

  /** The counter of a token can be read from it, and before it the random number and the time; so
      tokens with different counters differ. */
  lemma TokenTellsCounter(now: nat, random: nat, counter: nat)
    ensures var token := Token(now, random, counter);
      && CounterOf(token) == counter
      && CounterOf(BeforeDash(token)) == random
      && CounterOf(BeforeDash(BeforeDash(token))) == now
  {
    CounterReadsBack(Decimal(now) + "-" + Decimal(random), counter);
    BeforeDashOf(Decimal(now) + "-" + Decimal(random), counter);
    CounterReadsBack(Decimal(now), random);
    BeforeDashOf(Decimal(now), random);
    DecimalReadsBack(now);
  }

  // ---------------------------------------------------------------- endings and reports

  datatype Handlers = Handlers(success: int, fail: int, complete: int)

  datatype Ending = Done(uri: string) | Failed(message: string) | Cancelled

  datatype DownloadResult = DownloadResult(success: bool, code: int, data: string)

  datatype Report =
    | Accepted(handler: int, token: string)
    | Succeeded(handler: int, uri: string)
    | Rejected(handler: int, message: string, code: int)
    | Completed(handler: int)

  /** What a handler that is already set is told when the transfer ends. */
  function EarlyReports(e: Ending, h: Handlers): seq<Report> {
    [match e
     case Done(uri) => Succeeded(h.success, uri)
     case Failed(message) => Rejected(h.fail, message, TASK_FAILED)
     case Cancelled => Rejected(h.fail, "user cancel request", CANCEL_STATE),
     Completed(h.complete)]
  }

  /** What is remembered of the ending. */
  function ResultOf(e: Ending): DownloadResult {
    match e
    case Done(uri) => DownloadResult(true, DONE_STATE, uri)
    case Failed(message) => DownloadResult(false, TASK_FAILED, message)
    case Cancelled => DownloadResult(false, CANCEL_CODE, "request is canceled")
  }

  /** What a handler set after the end is told from memory. */
  function LateReports(r: DownloadResult, h: Handlers): seq<Report> {
    [if r.success then Succeeded(h.success, r.data) else Rejected(h.fail, r.data, r.code), Completed(h.complete)]
  }

  /** What a handler is told for a token that is missing or that nobody knows. */
  function UnknownReports(token: Option<string>, h: Handlers): seq<Report> {
    [Rejected(h.fail, if token.None? then "token is missing" else "task not exist", TASK_NOT_EXISTS),
     Completed(h.complete)]
  }

  /** Why a start is refused. */
  datatype Refusal = InvalidUrl | NoSpace

  /** What the caller of a start is told. */
  function RefusedReports(r: Refusal, h: Handlers): seq<Report> {
    [if r.InvalidUrl? then Rejected(h.fail, "invalid url", ARGS_ERROR)
     else Rejected(h.fail, "no space to download file", GENERAL_ERROR),
     Completed(h.complete)]
  }

  function AcceptedReports(token: string, h: Handlers): seq<Report> {
    [Accepted(h.success, token), Completed(h.complete)]
  }

  /** Early and late handlers are told the same exactly when the transfer was not cancelled. */
  lemma SameReportExactly(e: Ending, h: Handlers)
    ensures EarlyReports(e, h) == LateReports(ResultOf(e), h) <==> !e.Cancelled?
  {
    assert EarlyReports(e, h)[0] == LateReports(ResultOf(e), h)[0] <==> !e.Cancelled?;
  }

  /** The two reports that tell a handler, set before the end, how a transfer ended. */
  ghost predicate TellsEarly(rs: seq<Report>, e: Ending, h: Handlers) {
    && |rs| == 2 && rs[1] == Completed(h.complete)
    && match e
       case Done(uri) => rs[0] == Succeeded(h.success, uri)
       case Failed(message) => rs[0] == Rejected(h.fail, message, 1000)
       case Cancelled => rs[0] == Rejected(h.fail, "user cancel request", 2)
  }

  /** And one that is set after it. */
  ghost predicate TellsLate(rs: seq<Report>, e: Ending, h: Handlers) {
    && |rs| == 2 && rs[1] == Completed(h.complete)
    && match e
       case Done(uri) => rs[0] == Succeeded(h.success, uri)
       case Failed(message) => rs[0] == Rejected(h.fail, message, 1000)
       case Cancelled => rs[0] == Rejected(h.fail, "request is canceled", 1002)
  }

  lemma ReportsTell(e: Ending, h: Handlers)
    ensures TellsEarly(EarlyReports(e, h), e, h) && TellsLate(LateReports(ResultOf(e), h), e, h)
  {
  }

  // ---------------------------------------------------------------- the cache

  /** The order of the keys of a std::map. */
  predicate Leq(a: string, b: string) {
    if a == [] then true
    else if b == [] then false
    else if a[0] == b[0] then Leq(a[1..], b[1..])
    else a[0] < b[0]
  }

  ghost predicate IsFirst(keys: set<string>, k: string) {
    k in keys && forall j :: j in keys ==> Leq(k, j)
  }

  /** It is the lexicographic order of the characters: one is a prefix of the other, or the first
      difference decides. */
  lemma {:induction false} LeqIsLexicographic(a: string, b: string)
    ensures Leq(a, b) <==>
              a <= b || exists k :: 0 <= k < |a| && k < |b| && a[..k] == b[..k] && a[k] < b[k]
    decreases |a|
  {
    if a != [] && b != [] {
      var x, y := a[1..], b[1..];
      if a[0] == b[0] {
        LeqIsLexicographic(x, y);
        assert a == [a[0]] + x && b == [a[0]] + y;
        if k: int :| 0 <= k < |x| && k < |y| && x[..k] == y[..k] && x[k] < y[k] {
          assert a[..k + 1] == [a[0]] + x[..k] && b[..k + 1] == [a[0]] + y[..k];
          assert a[k + 1] < b[k + 1];
        }
        if k: int :| 0 <= k < |a| && k < |b| && a[..k] == b[..k] && a[k] < b[k] {
          assert k > 0 && x[..k - 1] == a[..k][1..] && y[..k - 1] == b[..k][1..];
          assert x[k - 1] < y[k - 1];
        }
      } else if a[0] < b[0] {
        assert a[..0] == b[..0];
      } else {
        assert forall k :: 0 < k < |a| && k < |b| ==> a[..k][0] == a[0] && b[..k][0] == b[0];
      }
    }
  }

  lemma {:induction false} LeqTotal(a: string, b: string)
    ensures Leq(a, b) || Leq(b, a)
    decreases |a|
  {
    if a != [] && b != [] && a[0] == b[0] { LeqTotal(a[1..], b[1..]); }
  }

  lemma {:induction false} LeqTransitive(a: string, b: string, c: string)
    requires Leq(a, b) && Leq(b, c)
    ensures Leq(a, c)
    decreases |a|
  {
    if a != [] && a[0] == b[0] && b[0] == c[0] { LeqTransitive(a[1..], b[1..], c[1..]); }
  }

  lemma {:induction false} FirstExists(keys: set<string>) returns (k: string)
    requires keys != {}
    ensures IsFirst(keys, k)
    decreases keys
  {
    var x :| x in keys;
    var rest := keys - {x};
    LeqTotal(x, x);
    if rest == {} {
      k := x;
      assert keys == {x};
    } else {
      var m := FirstExists(rest);
      LeqTotal(x, m);
      k := if Leq(x, m) then x else m;
      forall j | j in keys ensures Leq(k, j) {
        if j != x && k == x { LeqTransitive(x, m, j); }
      }
    }
  }

  /** Insert, and when ten are reached drop the first key, which may be the new one. */
  ghost predicate Inserted(before: map<string, DownloadResult>, token: string, r: DownloadResult,
                           after: map<string, DownloadResult>) {
    var full := before[token := r];
    if |full| >= CACHE_SIZE then exists k :: IsFirst(full.Keys, k) && after == full - {k} else after == full
  }

  lemma {:induction false} LeqAntisymmetric(a: string, b: string)
    requires Leq(a, b) && Leq(b, a)
    ensures a == b
    decreases |a|
  {
    if a != [] {
      assert a[0] == b[0];
      LeqAntisymmetric(a[1..], b[1..]);
    }
  }

  /** A new result survives its own insertion exactly when there is room or it is not the first key in
      the order of the map, which is not the order of the ends. */
  lemma SurvivesInsertionExactly(before: map<string, DownloadResult>, token: string, r: DownloadResult,
                                 after: map<string, DownloadResult>)
    requires |before| < CACHE_SIZE && token !in before && Inserted(before, token, r, after)
    ensures token in after <==> |before| < 9 || !forall j :: j in before ==> Leq(token, j)
  {
    var full := before[token := r];
    assert full.Keys == before.Keys + {token} && |full.Keys| == |before.Keys| + 1;
    if |full| >= CACHE_SIZE {
      var k :| IsFirst(full.Keys, k) && after == full - {k};
      if k != token && forall j :: j in before ==> Leq(token, j) { LeqAntisymmetric(k, token); }
    }
  }

  lemma CacheBound(before: map<string, DownloadResult>, token: string, r: DownloadResult,
                   after: map<string, DownloadResult>)
    requires |before| < CACHE_SIZE && Inserted(before, token, r, after)
    ensures |after| < CACHE_SIZE
    ensures forall t :: t in after ==> after[t] == (if t == token then r else before[t]) && (t == token || t in before)
  {
    var full := before[token := r];
    assert full.Keys == before.Keys + {token};
    assert |full.Keys| <= |before.Keys| + 1;
    if |full| >= CACHE_SIZE {
      var k :| IsFirst(full.Keys, k) && after == full - {k};
      assert after.Keys == full.Keys - {k};
    }
  }

  // ---------------------------------------------------------------- runs

  /** The pointer to the one download that is not shared: it may outlive its request. */
  datatype Share = Nobody | Current(token: string) | Gone

  datatype State = State(
    live: map<string, Option<Handlers>>,
    results: map<string, DownloadResult>,
    counter: nat,
    exclusive: set<string>,               // listed requests that are not shared
    share: Share,                         // shareInfo
    issued: set<string>,                  // tokens handed out
    ended: map<string, Ending>,           // transfers that ended while their page was attached
    reports: seq<Report>)

  /** A call that starts a download: the clock and the random number, and why it is refused if it is. */
  datatype Order = Order(now: nat, random: nat, share: bool, refusal: Option<Refusal>, handlers: Handlers)

  datatype Event =
    | Start(order: Order, previousAttached: bool)
    | OnComplete(asked: Option<string>, handlers: Handlers)
    | End(token: string, ending: Ending, attached: bool)

  const INITIAL: State := State(map[], map[], 0, {}, Nobody, {}, map[], [])

  function NewToken(order: Order, counter: nat): string {
    Token(order.now, order.random, counter + 1)
  }

  /** A refused start frees its request; an unshared one is still pointed at then. */
  function Begun(s: State, order: Order, token: string): State {
    if order.refusal.Some? then
      s.(share := if order.share then s.share else Gone,
         reports := s.reports + RefusedReports(order.refusal.value, order.handlers))
    else
      s.(counter := s.counter + 1, live := s.live[token := None], issued := s.issued + {token},
         exclusive := if order.share then s.exclusive else s.exclusive + {token},
         share := if order.share then s.share else Current(token),
         reports := s.reports + AcceptedReports(token, order.handlers))
  }

  /** The pointer when a request ends: with its page attached an unshared one clears it. */
  function ShareAfter(s: State, token: string, attached: bool): Share {
    if attached then if token in s.exclusive then Nobody else s.share
    else if s.share == Current(token) then Gone else s.share
  }

  function Unlisted(s: State, token: string, attached: bool): State {
    s.(live := s.live - {token}, exclusive := s.exclusive - {token}, share := ShareAfter(s, token, attached))
  }

  function Finished(s: State, token: string, ending: Ending, results: map<string, DownloadResult>): State
    requires token in s.live
  {
    Unlisted(s, token, true).(results := results, ended := s.ended[token := ending],
       reports := if s.live[token].Some? then s.reports + EarlyReports(ending, s.live[token].value) else s.reports)
  }

  ghost predicate EndStep(s: State, token: string, ending: Ending, attached: bool, t: State) {
    && token in s.live
    && if !attached then t == Unlisted(s, token, false)
       else Inserted(s.results, token, ResultOf(ending), t.results) && t == Finished(s, token, ending, t.results)
  }

  /** A start that is not shared first cancels the one before it. When the pointer has outlived its
      request the source follows it, and no step is defined. */
  ghost predicate StartStep(s: State, order: Order, previousAttached: bool, t: State) {
    var token := NewToken(order, s.counter);
    if order.share || s.share.Nobody? then t == Begun(s, order, token)
    else
      && s.share.Current?
      && exists mid :: EndStep(s, s.share.token, Cancelled, previousAttached, mid) && t == Begun(mid, order, token)
  }

  ghost predicate CancelStep(s: State, order: Order, previousAttached: bool, mid: State) {
    if !order.share && s.share.Current? then EndStep(s, s.share.token, Cancelled, previousAttached, mid) else mid == s
  }

  lemma StartsFrom(s: State, order: Order, previousAttached: bool, mid: State)
    requires CancelStep(s, order, previousAttached, mid) && (order.share || !s.share.Gone?)
    ensures StartStep(s, order, previousAttached, Begun(mid, order, NewToken(order, s.counter)))
  {
  }

  function CompleteReports(s: State, token: Option<string>, h: Handlers): seq<Report> {
    if token.Some? && token.value in s.results then LateReports(s.results[token.value], h) else UnknownReports(token, h)
  }

  /** What an event does; the entry a full cache gives up is the only thing left open. */
  ghost predicate Step(s: State, e: Event, t: State) {
    match e
    case Start(order, previousAttached) => StartStep(s, order, previousAttached, t)
    case OnComplete(token, h) =>
      if token.Some? && token.value in s.live then t == s.(live := s.live[token.value := Some(h)])
      else t == s.(reports := s.reports + CompleteReports(s, token, h))
    case End(token, ending, attached) => EndStep(s, token, ending, attached, t)
  }

  ghost predicate StepAt(states: seq<State>, es: seq<Event>, i: nat)
    requires |states| == |es| + 1 && i < |es|
  {
    Step(states[i], es[i], states[i + 1])
  }

  ghost predicate Run(states: seq<State>, es: seq<Event>) {
    |states| == |es| + 1 && states[0] == INITIAL && forall i :: 0 <= i < |es| ==> StepAt(states, es, i)
  }

  /** The counter of every token handed out has been passed. */
  ghost predicate TokensOk(issued: set<string>, counter: nat) {
    forall t :: t in issued ==> CounterOf(t) <= counter
  }

  ghost predicate LiveOk(live: map<string, Option<Handlers>>, issued: set<string>, ended: map<string, Ending>) {
    && (forall t :: t in live ==> t in issued && t !in ended)
    && (forall t :: t in ended ==> t in issued)
  }

  /** The cache stays small, and what is cached is what was reported. */
  ghost predicate ResultsOk(results: map<string, DownloadResult>, ended: map<string, Ending>) {
    |results| < CACHE_SIZE && forall t :: t in results ==> t in ended && results[t] == ResultOf(ended[t])
  }

  /** At most one listed download is not shared, and it is the one pointed at. */
  ghost predicate ShareOk(live: map<string, Option<Handlers>>, exclusive: set<string>, share: Share) {
    && (forall t :: t in exclusive ==> t in live && share == Current(t))
    && (share.Current? ==> share.token in exclusive)
  }

  ghost predicate Inv(s: State) {
    && TokensOk(s.issued, s.counter) && LiveOk(s.live, s.issued, s.ended) && ResultsOk(s.results, s.ended)
    && ShareOk(s.live, s.exclusive, s.share)
  }

  ghost predicate FreshToken(s: State, token: string) {
    token !in s.issued && token !in s.live && token !in s.ended && token !in s.results
  }

  lemma NewTokenIsFresh(s: State, token: string)
    requires Inv(s) && CounterOf(token) == s.counter + 1
    ensures FreshToken(s, token)
  {
    assert token !in s.issued;
  }

  lemma ResultCached(results: map<string, DownloadResult>, ended: map<string, Ending>, token: string, ending: Ending,
                     after: map<string, DownloadResult>)
    requires ResultsOk(results, ended) && Inserted(results, token, ResultOf(ending), after)
    ensures ResultsOk(after, ended[token := ending])
  {
    CacheBound(results, token, ResultOf(ending), after);
  }

  /** Starting keeps the invariant, once nothing unshared is listed if the start is not shared. */
  lemma BegunKeeps(s: State, order: Order, token: string)
    requires TokensOk(s.issued, s.counter) && LiveOk(s.live, s.issued, s.ended) && ResultsOk(s.results, s.ended)
    requires CounterOf(token) == s.counter + 1
    requires if order.share then ShareOk(s.live, s.exclusive, s.share) else s.exclusive == {}
    ensures Inv(Begun(s, order, token))
  {
    assert token !in s.issued;
  }

  lemma UnlistedKeeps(s: State, token: string, attached: bool)
    requires Inv(s)
    ensures Inv(Unlisted(s, token, attached))
    ensures token in s.exclusive ==> Unlisted(s, token, attached).exclusive == {}
  {
  }

  lemma FinishedKeeps(s: State, token: string, ending: Ending, results: map<string, DownloadResult>)
    requires Inv(s) && token in s.live && Inserted(s.results, token, ResultOf(ending), results)
    ensures Inv(Finished(s, token, ending, results))
  {
    UnlistedKeeps(s, token, true);
    ResultCached(s.results, s.ended, token, ending, results);
  }

  lemma EndKeeps(s: State, token: string, ending: Ending, attached: bool, t: State)
    requires Inv(s) && EndStep(s, token, ending, attached, t)
    ensures Inv(t) && t.counter == s.counter
    ensures token in s.exclusive ==> t.exclusive == {}
    ensures forall k :: k in s.ended ==> k in t.ended && t.ended[k] == s.ended[k]
  {
    UnlistedKeeps(s, token, attached);
    if attached { FinishedKeeps(s, token, ending, t.results); }
  }

  lemma TokenOfOrder(order: Order, counter: nat)
    ensures CounterOf(NewToken(order, counter)) == counter + 1
  {
    TokenTellsCounter(order.now, order.random, counter + 1);
  }

  lemma StartKeeps(s: State, order: Order, previousAttached: bool, t: State)
    requires Inv(s) && StartStep(s, order, previousAttached, t)
    ensures Inv(t)
    ensures forall k :: k in s.ended ==> k in t.ended && t.ended[k] == s.ended[k]
  {
    var token := NewToken(order, s.counter);
    TokenOfOrder(order, s.counter);
    if order.share || s.share.Nobody? {
      BegunKeeps(s, order, token);
    } else {
      var mid :| EndStep(s, s.share.token, Cancelled, previousAttached, mid) && t == Begun(mid, order, token);
      CancelKeeps(s, order, previousAttached, mid, token);
    }
  }

  lemma CancelKeeps(s: State, order: Order, previousAttached: bool, mid: State, token: string)
    requires Inv(s) && s.share.Current? && !order.share && CounterOf(token) == s.counter + 1
    requires EndStep(s, s.share.token, Cancelled, previousAttached, mid)
    ensures Inv(Begun(mid, order, token))
    ensures forall k :: k in s.ended ==> k in mid.ended && mid.ended[k] == s.ended[k]
  {
    EndKeeps(s, s.share.token, Cancelled, previousAttached, mid);
    BegunKeeps(mid, order, token);
  }

  lemma StepKeeps(s: State, e: Event, t: State)
    requires Inv(s) && Step(s, e, t)
    ensures Inv(t)
    ensures forall k :: k in s.ended ==> k in t.ended && t.ended[k] == s.ended[k]
  {
    match e {
      case Start(order, previousAttached) => StartKeeps(s, order, previousAttached, t);
      case OnComplete(_, _) =>
      case End(token, ending, attached) => EndKeeps(s, token, ending, attached, t);
    }
  }

  lemma {:induction false} RunKeeps(states: seq<State>, es: seq<Event>, n: nat)
    requires Run(states, es) && n <= |es|
    ensures Inv(states[n])
  {
    if n > 0 {
      var i := n - 1;
      RunKeeps(states, es, i);
      assert StepAt(states, es, i);
      StepKeeps(states[i], es[i], states[i + 1]);
    }
  }

  /** In every run, whatever the clock and the random number are, the token of the next download is
      none that was issued before, nor that of a listed, ended or remembered one. */
  lemma FreshInEveryRun(states: seq<State>, es: seq<Event>, n: nat, order: Order, token: string)
    requires Run(states, es) && n <= |es| && token == NewToken(order, states[n].counter)
    ensures FreshToken(states[n], token)
  {
    RunKeeps(states, es, n);
    TokenOfOrder(order, states[n].counter);
    NewTokenIsFresh(states[n], token);
  }

  /** In every run at most nine results are kept, all of them of ended transfers. */
  lemma CacheInEveryRun(states: seq<State>, es: seq<Event>, n: nat)
    requires Run(states, es) && n <= |es|
    ensures |states[n].results| <= 9
    ensures forall t :: t in states[n].results ==> t in states[n].ended && t !in states[n].live
  {
    RunKeeps(states, es, n);
  }

  /** How a transfer ended is settled by its end. */
  lemma {:induction false} EndingStays(states: seq<State>, es: seq<Event>, i: nat, j: nat)
    requires Run(states, es) && i < j <= |es| && es[i].End? && es[i].attached
    ensures es[i].token in states[j].ended && states[j].ended[es[i].token] == es[i].ending
    decreases j
  {
    var k := j - 1;
    assert StepAt(states, es, k);
    if k > i {
      EndingStays(states, es, i, k);
      RunKeeps(states, es, k);
      StepKeeps(states[k], es[k], states[k + 1]);
    }
  }

  /** In every run: a transfer ends at step `i` with its page attached, and at a later step `j`, its
      result not yet evicted, a handler is set. It is told what it would have been told had it been
      set before the end, exactly when the transfer was not cancelled. */
  lemma LateLikeEarlyExactly(states: seq<State>, es: seq<Event>, i: nat, j: nat)
    requires Run(states, es) && i < j < |es| && es[i].End? && es[i].attached
    requires es[j].OnComplete? && es[j].asked == Some(es[i].token) && es[i].token in states[j].results
    ensures states[j + 1].reports == states[j].reports + EarlyReports(es[i].ending, es[j].handlers)
            <==> !es[i].ending.Cancelled?
    ensures states[j].reports <= states[j + 1].reports
    ensures TellsLate(states[j + 1].reports[|states[j].reports|..], es[i].ending, es[j].handlers)
    ensures es[i].token in states[i].live
    ensures var h := states[i].live[es[i].token];
      h.Some? ==>
        && states[i].reports <= states[i + 1].reports
        && TellsEarly(states[i + 1].reports[|states[i].reports|..], es[i].ending, h.value)
  {
    var token, h := es[i].token, es[j].handlers;
    var s := states[j];
    EndingStays(states, es, i, j);
    RunKeeps(states, es, j);
    assert StepAt(states, es, i) && StepAt(states, es, j);
    var late, early := LateReports(s.results[token], h), EarlyReports(es[i].ending, h);
    assert states[j + 1].reports == s.reports + late;
    SameReportExactly(es[i].ending, h);
    AppendedEqual(s.reports, late, early);
    ReportsTell(es[i].ending, h);
    assert (s.reports + late)[|s.reports|..] == late;
    var r, live := states[i].reports, states[i].live[token];
    if live.Some? {
      ReportsTell(es[i].ending, live.value);
      assert (r + EarlyReports(es[i].ending, live.value))[|r|..] == EarlyReports(es[i].ending, live.value);
    }
  }

  lemma AppendedEqual(reports: seq<Report>, a: seq<Report>, b: seq<Report>)
    ensures reports + a == reports + b <==> a == b
  {
    assert (reports + a)[|reports|..] == a && (reports + b)[|reports|..] == b;
  }

  /** In every run at most one listed download is not shared. */
  lemma OneUnsharedInEveryRun(states: seq<State>, es: seq<Event>, n: nat)
    requires Run(states, es) && n <= |es|
    ensures forall a, b :: a in states[n].exclusive && b in states[n].exclusive ==> a == b
    ensures states[n].share.Current? ==> states[n].share.token in states[n].live
  {
    RunKeeps(states, es, n);
  }

  /** The pointer outlives its request: an unshared start is refused, or the unshared download ends
      after its page has gone. */
  predicate LosesShare(s: State, e: Event) {
    || (e.Start? && !e.order.share && e.order.refusal.Some?)
    || (e.End? && !e.attached && s.share == Current(e.token))
  }

  lemma BegunShare(s: State, order: Order, token: string)
    ensures Begun(s, order, token).share.Gone? <==> if order.share then s.share.Gone? else order.refusal.Some?
  {
  }

  lemma StartShare(s: State, order: Order, previousAttached: bool, t: State)
    requires StartStep(s, order, previousAttached, t)
    ensures t.share.Gone? <==> if order.share then s.share.Gone? else order.refusal.Some?
  {
    var token := NewToken(order, s.counter);
    if order.share || s.share.Nobody? {
      BegunShare(s, order, token);
    } else {
      var mid :| EndStep(s, s.share.token, Cancelled, previousAttached, mid) && t == Begun(mid, order, token);
      BegunShare(mid, order, token);
    }
  }

  lemma EndShare(s: State, token: string, ending: Ending, attached: bool, t: State)
    requires ShareOk(s.live, s.exclusive, s.share) && EndStep(s, token, ending, attached, t)
    ensures t.share.Gone? <==> s.share.Gone? || (!attached && s.share == Current(token))
  {
  }

  lemma ShareStep(s: State, e: Event, t: State)
    requires Inv(s) && Step(s, e, t)
    ensures t.share.Gone? <==> s.share.Gone? || LosesShare(s, e)
  {
    match e {
      case Start(order, previousAttached) => StartShare(s, order, previousAttached, t);
      case OnComplete(_, _) =>
      case End(token, ending, attached) => EndShare(s, token, ending, attached, t);
    }
  }

  ghost predicate LosesAt(states: seq<State>, es: seq<Event>, i: nat) {
    i < |states| && i < |es| && LosesShare(states[i], es[i])
  }

  /** In every run `shareInfo` leads to a listed download or nowhere, unless one of those two things has
      happened before; after that it stays as it is, and no unshared start is defined. */
  lemma {:induction false} ShareGoneExactly(states: seq<State>, es: seq<Event>, n: nat)
    requires Run(states, es) && n <= |es|
    ensures states[n].share.Gone? <==> exists i :: 0 <= i < n && LosesAt(states, es, i)
    ensures n < |es| && states[n].share.Gone? && es[n].Start? ==> es[n].order.share
  {
    if n > 0 {
      var k := n - 1;
      ShareGoneExactly(states, es, k);
      RunKeeps(states, es, k);
      assert StepAt(states, es, k);
      ShareStep(states[k], es[k], states[k + 1]);
      assert LosesAt(states, es, k) <==> LosesShare(states[k], es[k]);
    }
    if n < |es| { assert StepAt(states, es, n); }
  }

  // ---------------------------------------------------------------- the request context

  class RequestContext {
    var live: map<string, Option<Handlers>>
    var results: map<string, DownloadResult>
    var counter: nat
    var exclusive: set<string>
    var share: Share
    var reports: seq<Report>
    ghost var issued: set<string>
    ghost var ended: map<string, Ending>

    ghost function View(): State
      reads this
    {
      State(live, results, counter, exclusive, share, issued, ended, reports)
    }

    constructor ()
      ensures View() == INITIAL
    {
      live, results, counter, exclusive, share, reports, issued, ended := map[], map[], 0, {}, Nobody, [], {}, map[];
    }

    /** A start. One that is not shared first cancels the one before it; it is accepted exactly when
        there is no reason to refuse it, and then gets a token never issued before. */
    method Download(order: Order, previousAttached: bool) returns (token: Option<string>)
      requires Inv(View()) && (order.share || !share.Gone?)
      modifies this
      ensures Step(old(View()), Start(order, previousAttached), View()) && Inv(View())
      ensures token == if order.refusal.None? then Some(NewToken(order, old(counter))) else None
      ensures token.Some? ==> token.value in live && token.value !in old(issued) && live[token.value].None?
      ensures reports == old(reports) + CancelTold(old(View()), order, previousAttached) + StartTold(order, token)
    {
      ghost var s := View();
      TokenOfOrder(order, counter);
      NewTokenIsFresh(View(), NewToken(order, counter));
      CancelPrevious(order, previousAttached);
      ghost var mid := View();
      BegunKeeps(mid, order, NewToken(order, counter));
      StartTells(mid, order, NewToken(order, counter));
      StartsFrom(s, order, previousAttached, mid);
      token := Begin(order);
    }

    /** An unshared start cancels the unshared download before it. */
    method CancelPrevious(order: Order, previousAttached: bool)
      requires Inv(View()) && (order.share || !share.Gone?)
      modifies this
      ensures Inv(View()) && CancelStep(old(View()), order, previousAttached, View())
      ensures !order.share ==> exclusive == {}
      ensures counter == old(counter) && issued == old(issued)
      ensures reports == old(reports) + CancelTold(old(View()), order, previousAttached)
    {
      if !order.share && share.Current? {
        RequestEnded(share.token, Cancelled, previousAttached);
      }
    }

    method Begin(order: Order) returns (token: Option<string>)
      modifies this`counter, this`live, this`issued, this`exclusive, this`share, this`reports
      ensures View() == Begun(old(View()), order, NewToken(order, old(counter)))
      ensures token == if order.refusal.None? then Some(NewToken(order, old(counter))) else None
    {
      if order.refusal.Some? {
        if !order.share { share := Gone; }
        reports := reports + RefusedReports(order.refusal.value, order.handlers);
        return None;
      }
      var made := NewToken(order, counter);
      counter := counter + 1;
      live := live[made := None];
      issued := issued + {made};
      if !order.share {
        exclusive := exclusive + {made};
        share := Current(made);
      }
      reports := reports + AcceptedReports(made, order.handlers);
      token := Some(made);
    }

    /** The first key of the map, by comparing them all. */
    method FirstKey(keys: set<string>) returns (k: string)
      requires keys != {}
      ensures IsFirst(keys, k)
    {
      k :| k in keys;
      var todo := keys - {k};
      LeqTotal(k, k);
      while todo != {}
        invariant todo < keys && k in keys - todo
        invariant forall j :: j in keys - todo ==> Leq(k, j)
        decreases todo
      {
        var j :| j in todo;
        todo := todo - {j};
        LeqTotal(k, j);
        LeqTotal(j, j);
        if !Leq(k, j) {
          forall i | i in keys - todo ensures Leq(j, i) {
            if i != j { LeqTransitive(j, k, i); }
          }
          k := j;
        }
      }
    }

    method AddResult(token: string, r: DownloadResult)
      modifies this`results
      ensures Inserted(old(results), token, r, results)
    {
      results := results[token := r];
      if |results| >= CACHE_SIZE {
        assert token in results.Keys;
        var k := FirstKey(results.Keys);
        results := results - {k};
      }
    }

    /** The end of a transfer, also of a cancelled one: a handler that is set is told, the result is
        remembered and the request leaves the list; after its page left it only leaves the list. */
    method RequestEnded(token: string, ending: Ending, attached: bool)
      requires Inv(View()) && token in live
      modifies this
      ensures EndStep(old(View()), token, ending, attached, View()) && Inv(View())
      ensures token in old(exclusive) ==> exclusive == {}
      ensures live == old(live) - {token}
      ensures attached && old(live)[token].Some? ==>
        && old(reports) <= reports && TellsEarly(reports[|old(reports)|..], ending, old(live)[token].value)
      ensures !attached || old(live)[token].None? ==> reports == old(reports)
      ensures reports == old(reports) + EndTold(old(View()), token, ending, attached)
      ensures !attached ==> results == old(results)
      ensures attached ==> (token in results <==> |old(results)| < 9 || exists j :: j in old(results) && !Leq(token, j))
      ensures attached && token in results ==> Remembers(results[token], ending)
      ensures forall t :: t in results && t != token ==> t in old(results) && results[t] == old(results)[t]
      ensures |results| <= 9 && (attached && |old(results)| < 9 ==> results.Keys == old(results).Keys + {token})
      ensures counter == old(counter) && issued == old(issued)
    {
      UnlistedKeeps(View(), token, attached);
      EndTells(View(), token, ending, attached);
      if attached {
        Report(token, ending);
        EndRemembers(old(results), token, ending, results);
      } else {
        Unlist(token, false);
      }
    }

    method Report(token: string, ending: Ending)
      requires Inv(View()) && token in live
      modifies this
      ensures Inserted(old(results), token, ResultOf(ending), results)
      ensures View() == Finished(old(View()), token, ending, results) && Inv(View())
    {
      AddResult(token, ResultOf(ending));
      FinishedKeeps(old(View()), token, ending, results);
      if live[token].Some? { reports := reports + EarlyReports(ending, live[token].value); }
      ended := ended[token := ending];
      Unlist(token, true);
    }

    method Unlist(token: string, attached: bool)
      modifies this`live, this`exclusive, this`share
      ensures View() == Unlisted(old(View()), token, attached)
    {
      if attached && token in exclusive { share := Nobody; }
      if !attached && share == Current(token) { share := Gone; }
      live := live - {token};
      exclusive := exclusive - {token};
    }

    /** A handler is set on a listed request, answered from memory, or told that there is no such task. */
    method OnDownloadComplete(token: Option<string>, h: Handlers)
      requires Inv(View())
      modifies this
      ensures Step(old(View()), OnComplete(token, h), View()) && Inv(View())
      ensures token.Some? && token.value in old(live) ==>
        live == old(live)[token.value := Some(h)] && reports == old(reports)
      ensures !(token.Some? && token.value in old(live)) ==>
        live == old(live) && reports == old(reports) + CompleteTold(old(results), token, h)
      ensures results == old(results)
    {
      if token.Some? && token.value in live {
        live := live[token.value := Some(h)];
      } else if token.Some? && token.value in results {
        reports := reports + LateReports(results[token.value], h);
      } else {
        reports := reports + UnknownReports(token, h);
      }
      StepKeeps(old(View()), OnComplete(token, h), View());
    }
  }

  // ---------------------------------------------------------------- what is told

  /** What an end tells: nothing without a handler or a page. */
  ghost function EndTold(s: State, token: string, e: Ending, attached: bool): seq<Report>
    requires token in s.live
  {
    if !attached || s.live[token].None? then []
    else
      var h := s.live[token].value;
      match e
      case Done(uri) => [Succeeded(h.success, uri), Completed(h.complete)]
      case Failed(message) => [Rejected(h.fail, message, 1000), Completed(h.complete)]
      case Cancelled => [Rejected(h.fail, "user cancel request", 2), Completed(h.complete)]
  }

  lemma EndTells(s: State, token: string, e: Ending, attached: bool)
    requires token in s.live
    ensures forall results :: Finished(s, token, e, results).reports == s.reports + EndTold(s, token, e, true)
    ensures Unlisted(s, token, false).reports == s.reports + EndTold(s, token, e, false)
    ensures attached && s.live[token].Some? ==>
      TellsEarly((s.reports + EndTold(s, token, e, attached))[|s.reports|..], e, s.live[token].value)
    ensures !attached || s.live[token].None? ==> EndTold(s, token, e, attached) == []
  {
    assert (s.reports + EndTold(s, token, e, attached))[|s.reports|..] == EndTold(s, token, e, attached);
  }

  /** What a handler is told that is set for a token without a listed request. */
  ghost function CompleteTold(results: map<string, DownloadResult>, token: Option<string>, h: Handlers): seq<Report> {
    if token.None? then [Rejected(h.fail, "token is missing", 1001), Completed(h.complete)]
    else if token.value !in results then [Rejected(h.fail, "task not exist", 1001), Completed(h.complete)]
    else
      var r := results[token.value];
      [if r.success then Succeeded(h.success, r.data) else Rejected(h.fail, r.data, r.code), Completed(h.complete)]
  }

  /** What is remembered of an ending. */
  ghost predicate Remembers(r: DownloadResult, e: Ending) {
    match e
    case Done(uri) => r.success && r.data == uri
    case Failed(message) => !r.success && r.data == message && r.code == 1000
    case Cancelled => !r.success && r.data == "request is canceled" && r.code == 1002
  }

  lemma EndRemembers(before: map<string, DownloadResult>, token: string, e: Ending, after: map<string, DownloadResult>)
    requires |before| <= 9 && token !in before && Inserted(before, token, ResultOf(e), after)
    ensures token in after <==> |before| < 9 || exists j :: j in before && !Leq(token, j)
    ensures token in after ==> Remembers(after[token], e)
    ensures forall t :: t in after && t != token ==> t in before && after[t] == before[t]
    ensures |after| <= 9 && (|before| < 9 ==> after.Keys == before.Keys + {token})
  {
    SurvivesInsertionExactly(before, token, ResultOf(e), after);
    CacheBound(before, token, ResultOf(e), after);
    RoomKeepsAll(before, token, ResultOf(e), after);
  }

  lemma RoomKeepsAll(before: map<string, DownloadResult>, token: string, r: DownloadResult,
                     after: map<string, DownloadResult>)
    requires token !in before && Inserted(before, token, r, after)
    ensures |before| < 9 ==> after.Keys == before.Keys + {token}
  {
    var full := before[token := r];
    assert full.Keys == before.Keys + {token} && |full| == |full.Keys| == |before.Keys| + 1;
  }

  /** What the handler of the unshared download before this one is told: it is cancelled. */
  ghost function CancelTold(s: State, order: Order, attached: bool): seq<Report> {
    if !order.share && s.share.Current? && s.share.token in s.live then EndTold(s, s.share.token, Cancelled, attached)
    else []
  }

  /** What the caller of a start is told. */
  ghost function StartTold(order: Order, token: Option<string>): seq<Report> {
    var h := order.handlers;
    match order.refusal
    case None => if token.Some? then [Accepted(h.success, token.value), Completed(h.complete)] else []
    case Some(InvalidUrl) => [Rejected(h.fail, "invalid url", 202), Completed(h.complete)]
    case Some(NoSpace) => [Rejected(h.fail, "no space to download file", 200), Completed(h.complete)]
  }

  lemma StartTells(s: State, order: Order, token: string)
    ensures Begun(s, order, token).reports ==
            s.reports + StartTold(order, if order.refusal.None? then Some(token) else None)
  {
  }
}
