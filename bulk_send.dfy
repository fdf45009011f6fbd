/** api/bulk-send.js: the raw message handed to Gmail, the shared-cursor
    worker pool `mapWithLimit`, and the request checks and status codes of
    the handler. Sending itself is an outcome per message, given. */
module BulkSend {
  import opened Wrappers
  import opened Strings
  import opened Cells
  import opened Utf8
  import opened Base64Url

  // ------------------------------------------------------ the raw message

  datatype Message = Message(to: string, subject: string, text: string, replyTo: Cell)

  /** The header lines of `buildRawRfc822`, in order. */
  function RawHeaders(m: Message): seq<string> {
    ["To: " + m.to, "Subject: " + m.subject]
    + (if Truthy(m.replyTo) then ["Reply-To: " + Stringify(m.replyTo)] else [])
    + ["Content-Type: text/plain; charset=UTF-8"]
  }

  /** `buildRawRfc822(m)`. */
  function BuildRawRfc822(m: Message): string {
    Join(RawHeaders(m), "\r\n") + "\r\n\r\n" + m.text + "\r\n"
  }

  /** The `raw` field sent to Gmail. */
  function GmailRaw(m: Message): string {
    ToBase64Url(BuildRawRfc822(m))
  }

  /** `To`, then `Subject`, then `Reply-To` exactly when the reply address is
      truthy, then `Content-Type`; after an empty line the text follows
      unchanged, then a final CR LF. */
  lemma RawLayout(m: Message)
    ensures var h := RawHeaders(m);
      |h| == (if Truthy(m.replyTo) then 4 else 3)
      && h[0] == "To: " + m.to && h[1] == "Subject: " + m.subject
      && (Truthy(m.replyTo) ==> h[2] == "Reply-To: " + Stringify(m.replyTo))
      && h[|h| - 1] == "Content-Type: text/plain; charset=UTF-8"
    ensures var f := BuildRawRfc822(m);
      var start := |Join(RawHeaders(m), "\r\n")| + 4;
      start + |m.text| + 2 == |f|
      && f[..start] == Join(RawHeaders(m), "\r\n") + "\r\n\r\n"
      && f[start..start + |m.text|] == m.text
      && f[start + |m.text|..] == "\r\n"
  {
    var h := Join(RawHeaders(m), "\r\n");
    var f := BuildRawRfc822(m);
    assert f == (h + "\r\n\r\n") + m.text + "\r\n";
  }

  /** Gmail receives the message losslessly: decoding `raw` gives it back. */
  lemma GmailRawRoundTrip(m: Message)
    ensures UrlDecode(GmailRaw(m)).Some?
    ensures Utf8Decode(UrlDecode(GmailRaw(m)).value) == Some(BuildRawRfc822(m))
  {
    ToBase64UrlRoundTrip(BuildRawRfc822(m));
  }

  // --------------------------------------------------------- the worker pool

  /** How one call of `fn` ended: resolved, or rejected with a message. */
  datatype Outcome = Sent | Failed(message: string)

  /** One slot of `results`. */
  datatype Report = Report(index: nat, ok: bool, error: Option<string>)

  function ReportOf(k: nat, o: Outcome): Report {
    match o
    case Sent => Report(k, true, None)
    case Failed(msg) => Report(k, false, Some(msg))
  }

  /** `new Array(Math.min(limit, n))`: a negative length is a RangeError. */
  function WorkerCount(limit: int, n: nat): Result<nat, string> {
    var w := if limit < n then limit else n;
    if w < 0 then Failure("RangeError: Invalid array length") else Success(w)
  }

  function CountBusy(slots: seq<Option<nat>>): nat {
    if slots == [] then 0 else CountBusy(slots[..|slots| - 1]) + (if slots[|slots| - 1].Some? then 1 else 0)
  }

  lemma {:induction false} CountBusyUpdate(slots: seq<Option<nat>>, j: nat, v: Option<nat>)
    requires j < |slots| && slots[j].Some?
    ensures CountBusy(slots[j := v]) == CountBusy(slots) - 1 + (if v.Some? then 1 else 0)
    decreases |slots|
  {
    var n := |slots| - 1;
    if j < n {
      CountBusyUpdate(slots[..n], j, v);
      assert slots[j := v][..n] == slots[..n][j := v];
    } else {
      assert slots[j := v][..n] == slots[..n];
    }
  }

  lemma {:induction false} CountBusyZero(slots: seq<Option<nat>>)
    requires CountBusy(slots) == 0
    ensures forall j :: 0 <= j < |slots| ==> slots[j].None?
  {
    if slots != [] {
      var n := |slots| - 1;
      CountBusyZero(slots[..n]);
      assert forall j :: 0 <= j < n ==> slots[j] == slots[..n][j];
    }
  }

  lemma {:induction false} CountBusyAll(slots: seq<Option<nat>>)
    requires forall j :: 0 <= j < |slots| ==> slots[j].Some?
    ensures CountBusy(slots) == |slots|
  {
    if slots != [] {
      CountBusyAll(slots[..|slots| - 1]);
    }
  }

  function Upto(n: nat): seq<nat> {
    seq(n, k requires 0 <= k < n => k)
  }

  /** The index of the first worker that is busy. */
  method FirstBusy(slots: seq<Option<nat>>) returns (j: nat)
    requires CountBusy(slots) > 0
    ensures j < |slots| && slots[j].Some?
  {
    j := 0;
    while j < |slots| && slots[j].None?
      invariant j <= |slots|
      invariant forall q :: 0 <= q < j ==> slots[q].None?
    {
      j := j + 1;
    }
    if j == |slots| {
      CountBusyNone(slots);
    }
  }

  lemma {:induction false} CountBusyNone(slots: seq<Option<nat>>)
    requires forall j :: 0 <= j < |slots| ==> slots[j].None?
    ensures CountBusy(slots) == 0
  {
    if slots != [] {
      CountBusyNone(slots[..|slots| - 1]);
    }
  }

  /** The sizes agree, `calls` is every claimed index in order, and while
      indices are left every worker is busy. */
  ghost predicate Shape(n: nat, w: nat, slots: seq<Option<nat>>, next: nat, calls: seq<nat>,
                        res: seq<Option<Report>>)
  {
    |slots| == w && w <= n && |res| == n && next <= n && calls == Upto(next)
    && (w == 0 ==> next == 0)
    && (next < n ==> forall j :: 0 <= j < w ==> slots[j].Some?)
  }

  /** Each busy worker awaits its own claimed, unwritten index, and every
      claimed index not yet written is awaited. */
  ghost predicate Awaiting(n: nat, slots: seq<Option<nat>>, next: nat, res: seq<Option<Report>>)
    requires next <= n == |res|
  {
    (forall j :: 0 <= j < |slots| && slots[j].Some? ==> slots[j].value < next && res[slots[j].value].None?)
    && (forall j, q :: 0 <= j < q < |slots| && slots[j].Some? && slots[q].Some? ==> slots[j].value != slots[q].value)
    && (forall k :: 0 <= k < next && res[k].None? ==> Some(k) in slots)
  }

  /** A written slot holds its own report; unclaimed slots are empty. */
  ghost predicate Written(fn: nat -> Outcome, next: nat, res: seq<Option<Report>>)
  {
    (forall k :: 0 <= k < |res| ==> res[k].None? || res[k] == Some(ReportOf(k, fn(k))))
    && (forall k :: next <= k < |res| ==> res[k].None?)
  }

  /** `settled` lists the written slots, each once. */
  ghost predicate Log(slots: seq<Option<nat>>, next: nat, settled: seq<nat>, res: seq<Option<Report>>)
  {
    (forall a, b :: 0 <= a < b < |settled| ==> settled[a] != settled[b])
    && (forall a :: 0 <= a < |settled| ==> settled[a] < next && settled[a] < |res| && res[settled[a]].Some?)
    && |settled| + CountBusy(slots) == next
  }

  ghost predicate PoolInv(n: nat, w: nat, fn: nat -> Outcome, slots: seq<Option<nat>>, next: nat,
                          calls: seq<nat>, settled: seq<nat>, res: seq<Option<Report>>)
  {
    Shape(n, w, slots, next, calls, res) && Awaiting(n, slots, next, res)
    && Written(fn, next, res) && Log(slots, next, settled, res)
  }

  /** What one settling does to the pool: worker j's index is written with
      its report and logged, and the worker claims the next index if one is
      left. */
  lemma SettleKeeps(n: nat, w: nat, fn: nat -> Outcome, slots: seq<Option<nat>>, next: nat,
                    calls: seq<nat>, settled: seq<nat>, res: seq<Option<Report>>, j: nat,
                    slots': seq<Option<nat>>, next': nat, calls': seq<nat>, settled': seq<nat>,
                    res': seq<Option<Report>>)
    requires PoolInv(n, w, fn, slots, next, calls, settled, res) && j < w && slots[j].Some?
    requires var idx := slots[j].value;
      res' == res[idx := Some(ReportOf(idx, fn(idx)))] && settled' == settled + [idx]
      && next' == (if next < n then next + 1 else next)
      && calls' == (if next < n then calls + [next] else calls)
      && slots' == slots[j := if next < n then Some(next) else None]
    ensures PoolInv(n, w, fn, slots', next', calls', settled', res')
    ensures CountBusy(slots') == CountBusy(slots) - (if next < n then 0 else 1)
  {
    var idx := slots[j].value;
    var claim: Option<nat> := if next < n then Some(next) else None;
    CountBusyUpdate(slots, j, claim);
    assert Shape(n, w, slots', next', calls', res');
    WrittenKept(fn, next, res, idx, next', res');
    LogKept(slots, next, settled, res, j, slots', next', settled', res');
    AwaitingKept(n, slots, next, res, j, claim, slots', next', res');
  }

  lemma WrittenKept(fn: nat -> Outcome, next: nat, res: seq<Option<Report>>, idx: nat, next': nat,
                    res': seq<Option<Report>>)
    requires Written(fn, next, res) && idx < next <= next' && idx < |res|
    requires res' == res[idx := Some(ReportOf(idx, fn(idx)))]
    ensures Written(fn, next', res')
  {
  }

  lemma LogKept(slots: seq<Option<nat>>, next: nat, settled: seq<nat>, res: seq<Option<Report>>, j: nat,
                slots': seq<Option<nat>>, next': nat, settled': seq<nat>, res': seq<Option<Report>>)
    requires Log(slots, next, settled, res) && j < |slots| && slots[j].Some?
    requires slots[j].value < next && slots[j].value < |res| && res[slots[j].value].None?
    requires |res'| == |res| && res' == res[slots[j].value := res'[slots[j].value]] && res'[slots[j].value].Some?
    requires settled' == settled + [slots[j].value] && next <= next'
    requires CountBusy(slots') + 1 == CountBusy(slots) + (next' - next)
    ensures Log(slots', next', settled', res')
  {
    var idx := slots[j].value;
    forall a | 0 <= a < |settled| ensures settled[a] != idx {
      assert res[settled[a]].Some?;
    }
  }

  lemma AwaitingKept(n: nat, slots: seq<Option<nat>>, next: nat, res: seq<Option<Report>>, j: nat,
                     claim: Option<nat>, slots': seq<Option<nat>>, next': nat, res': seq<Option<Report>>)
    requires next <= n == |res| && Awaiting(n, slots, next, res) && j < |slots| && slots[j].Some?
    requires var idx := slots[j].value;
      |res'| == n && res' == res[idx := res'[idx]] && res'[idx].Some?
    requires claim == (if next < n then Some(next) else None)
    requires next' == (if next < n then next + 1 else next)
    requires slots' == slots[j := claim]
    requires forall k :: next <= k < n ==> res[k].None?
    ensures Awaiting(n, slots', next', res')
  {
    var idx := slots[j].value;
    forall k | 0 <= k < next' && res'[k].None? ensures Some(k) in slots' {
      if k == next {
        assert slots'[j] == Some(k);
      } else {
        assert res[k].None?;
        var q :| 0 <= q < |slots| && slots[q] == Some(k);
        assert slots'[q] == Some(k);
      }
    }
  }

  /** With no worker busy, every slot is written when there was a worker,
      and none was claimed when there was none. */
  lemma Finished(n: nat, w: nat, fn: nat -> Outcome, slots: seq<Option<nat>>, next: nat,
                 calls: seq<nat>, settled: seq<nat>, res: seq<Option<Report>>)
    requires PoolInv(n, w, fn, slots, next, calls, settled, res) && CountBusy(slots) == 0
    ensures w > 0 ==> next == n && forall k :: 0 <= k < n ==> res[k] == Some(ReportOf(k, fn(k)))
    ensures w == 0 ==> next == 0 && forall k :: 0 <= k < n ==> res[k].None?
  {
    CountBusyZero(slots);
    assert forall k :: 0 <= k < next ==> Some(k) !in slots;
  }

  /** The state `mapWithLimit` shares between its workers: the `results`
      array, the cursor `i` (here `next`), and what each of the `w` workers
      is waiting on. `calls` records the order in which `fn` was invoked,
      `settled` the order in which slots were written. */
  class Pool {
    const n: nat
    const w: nat
    const fn: nat -> Outcome
    const results: array<Option<Report>>
    var slots: seq<Option<nat>>
    var next: nat
    var calls: seq<nat>
    var settled: seq<nat>

    /** Every slot is written at most once, with its own report; every
        claimed index is either written or awaited by exactly one worker. */
    ghost predicate Inv()
      reads this, results
    {
      PoolInv(n, w, fn, slots, next, calls, settled, results[..])
    }

    function Measure(): nat
      reads this
    {
      if next <= n then 2 * (n - next) + CountBusy(slots) else 0
    }

    /** The workers are created in turn, and each runs until its first
        `await`: worker j claims index j. */
    constructor(n: nat, w: nat, fn: nat -> Outcome)
      requires w <= n
      ensures this.n == n && this.w == w && this.fn == fn && fresh(results)
      ensures Inv() && next == w && settled == []
      ensures forall j :: 0 <= j < w ==> slots[j] == Some(j)
    {
      this.n := n;
      this.w := w;
      this.fn := fn;
      results := new Option<Report>[n](_ => None);
      settled := [];
      var s: seq<Option<nat>> := [];
      var c: seq<nat> := [];
      var i := 0;
      while i < w
        invariant i <= w && |s| == i && c == Upto(i)
        invariant forall j :: 0 <= j < i ==> s[j] == Some(j)
      {
        s := s + [Some(i)];
        c := c + [i];
        i := i + 1;
      }
      slots := s;
      calls := c;
      next := i;
      new;
      CountBusyAll(slots);
      assert forall k :: 0 <= k < next ==> slots[k] == Some(k);
    }

    /** Worker j's call settles: it writes its slot, then claims the next
        index if one is left. */
    method Settle(j: nat)
      requires Inv() && j < w && slots[j].Some?
      modifies this, results
      ensures Inv() && Measure() < old(Measure())
      ensures settled == old(settled) + [old(slots[j].value)]
      ensures old(next) < n ==> calls == old(calls) + [old(next)]
      ensures old(next) == n ==> calls == old(calls)
      ensures old(slots[j].value) < results.Length
      ensures results[..] == old(results[..])[old(slots[j].value) :=
        Some(ReportOf(old(slots[j].value), fn(old(slots[j].value))))]
      ensures slots == old(slots)[j := if old(next) < n then Some(old(next)) else None]
      ensures next == if old(next) < n then old(next) + 1 else old(next)
    {
      ghost var s0, n0, c0, st0, r0 := slots, next, calls, settled, results[..];
      var idx := slots[j].value;
      results[idx] := Some(ReportOf(idx, fn(idx)));
      settled := settled + [idx];
      var claim: Option<nat> := None;
      if next < n {
        claim := Some(next);
        calls := calls + [next];
        next := next + 1;
      }
      slots := slots[j := claim];
      SettleKeeps(n, w, fn, s0, n0, c0, st0, r0, j, slots, next, calls, settled, results[..]);
    }

    /** With no worker busy, every slot is written when there was a worker. */
    lemma Done()
      requires Inv() && CountBusy(slots) == 0
      ensures w > 0 ==> next == n && forall k :: 0 <= k < n ==> results[k] == Some(ReportOf(k, fn(k)))
      ensures w == 0 ==> next == 0 && forall k :: 0 <= k < n ==> results[k].None?
    {
      Finished(n, w, fn, slots, next, calls, settled, results[..]);
    }
  }

  /** `mapWithLimit(items, limit, fn)` for `n` items whose calls end as
      `fn(k)` says; `pick` chooses, step by step, which busy worker's call
      settles next, so the contract holds for every scheduling (a choice
      that is not a busy worker falls back to the first busy one). `calls`
      is the order in which `fn` was invoked, `settled` the order in which
      the slots were written. */
  method MapWithLimit(n: nat, limit: int, fn: nat -> Outcome, pick: nat -> nat)
    returns (r: Result<seq<Option<Report>>, string>, calls: seq<nat>, settled: seq<nat>)
    ensures WorkerCount(limit, n).Failure? <==> r.Failure?
    ensures r.Success? ==> |r.value| == n
    ensures r.Success? && limit >= 1 ==>
      calls == Upto(n) && forall k :: 0 <= k < n ==> r.value[k] == Some(ReportOf(k, fn(k)))
    ensures r.Success? && limit < 1 ==> calls == [] && forall k :: 0 <= k < n ==> r.value[k] == None
    ensures |settled| == |calls|
    ensures forall a, b :: 0 <= a < b < |settled| ==> settled[a] != settled[b]
    ensures forall a :: 0 <= a < |settled| ==> settled[a] < |calls|
  {
    match WorkerCount(limit, n)
    case Failure(e) =>
      r, calls, settled := Failure(e), [], [];
    case Success(w) =>
      var pool := new Pool(n, w, fn);
      var step := 0;
      while CountBusy(pool.slots) > 0
        invariant fresh(pool) && fresh(pool.results)
        invariant pool.n == n && pool.w == w && pool.fn == fn && pool.Inv()
        decreases pool.Measure()
      {
        var j := pick(step);
        if !(j < w && pool.slots[j].Some?) {
          j := FirstBusy(pool.slots);
        }
        pool.Settle(j);
        step := step + 1;
      }
      pool.Done();
      r, calls, settled := Success(pool.results[..]), pool.calls, pool.settled;
  }

  // --------------------------------------------------------------- handler

  datatype User = User(provider: string, accessToken: string)

  /** The parts of a request the handler reads; `messages` is `None` when
      the body's `messages` is not an array. */
  datatype Request = Request(httpMethod: string, user: Option<User>, messages: Option<seq<Message>>)

  datatype Response = Response(status: int, ok: bool, error: string, results: seq<Option<Report>>)

  const Concurrency: int := 5

  /** The first check: user, provider, token and a non-empty message list. */
  predicate WellFormed(req: Request) {
    req.user.Some? && req.user.value.provider != "" && req.user.value.accessToken != ""
    && req.messages.Some? && |req.messages.value| > 0
  }

  predicate Supported(provider: string) {
    provider == "microsoft" || provider == "google"
  }

  /** `results.every(r => r?.ok)`: `every` skips the holes of a sparse array. */
  predicate AllOk(results: seq<Option<Report>>) {
    forall k :: 0 <= k < |results| && results[k].Some? ==> results[k].value.ok
  }

  /** `handler(req, res)` with `send(k)` the outcome of sending message k. */
  method Handle(req: Request, send: nat -> Outcome, pick: nat -> nat) returns (resp: Response)
    ensures req.httpMethod != "POST" ==> resp == Response(405, false, "POST only", [])
    ensures req.httpMethod == "POST" && !WellFormed(req) ==>
      resp == Response(400, false, "Missing user/provider/accessToken or messages", [])
    ensures req.httpMethod == "POST" && WellFormed(req) && !Supported(req.user.value.provider) ==>
      resp == Response(400, false, "Unsupported provider", [])
    ensures req.httpMethod == "POST" && WellFormed(req) && Supported(req.user.value.provider) ==>
      var n := |req.messages.value|;
      |resp.results| == n
      && (forall k :: 0 <= k < n ==> resp.results[k] == Some(ReportOf(k, send(k))))
      && resp.ok == (forall k :: 0 <= k < n ==> send(k).Sent?)
      && resp.status == (if resp.ok then 200 else 207)
  {
    if req.httpMethod != "POST" {
      return Response(405, false, "POST only", []);
    }
    if !WellFormed(req) {
      return Response(400, false, "Missing user/provider/accessToken or messages", []);
    }
    if !Supported(req.user.value.provider) {
      return Response(400, false, "Unsupported provider", []);
    }
    var n := |req.messages.value|;
    var r, calls, settled := MapWithLimit(n, Concurrency, send, pick);
    match r
    case Failure(e) =>
      resp := Response(500, false, e, []);
    case Success(results) =>
      var ok := AllOk(results);
      assert ok == (forall k :: 0 <= k < n ==> send(k).Sent?) by {
        if !ok {
          var k :| 0 <= k < n && results[k].Some? && !results[k].value.ok;
          assert results[k] == Some(ReportOf(k, send(k)));
        }
        if ok {
          forall k | 0 <= k < n ensures send(k).Sent? {
            assert results[k] == Some(ReportOf(k, send(k)));
          }
        }
      }
      resp := Response(if ok then 200 else 207, ok, "", results);
  }
}
