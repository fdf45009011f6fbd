/** `createDrafts` of src/graph.js: the messages are cut into batches of at
    most twenty (the Graph `$batch` limit), each batch becomes one `$batch`
    request whose sub-requests are numbered "1".."k", and the 2xx answers
    are collected in order. The Graph call itself is an oracle. */
module Drafts {
  import opened Wrappers
  import opened Strings
  import opened Cells
  import opened Seqs

  // --------------------------------------------------------------- chunk

  /** `arr.slice(i, j)` for `0 <= i <= |arr|`: the end is clamped. */
  function Slice<T>(arr: seq<T>, i: nat, j: nat): (r: seq<T>)
    requires i <= |arr|
    ensures |r| == (if j <= |arr| then if i <= j then j - i else 0 else |arr| - i)
    ensures forall k :: 0 <= k < |r| ==> r[k] == arr[i + k]
  {
    if j <= i then [] else if j <= |arr| then arr[i..j] else arr[i..]
  }

  /** The `reduce` of `chunk(arr, n)` after its first `k` steps: at index
      `i` a batch `arr.slice(i, i + n)` is pushed unless `i % n` is truthy
      (for `n == 0` the remainder is NaN, which is falsy). */
  function ChunkUpto<T>(arr: seq<T>, n: nat, k: nat): seq<seq<T>>
    requires k <= |arr|
  {
    if k == 0 then []
    else
      var i := k - 1;
      var a := ChunkUpto(arr, n, i);
      if n > 0 && i % n != 0 then a else a + [Slice(arr, i, i + n)]
  }

  /** `chunk(arr, n)`. */
  function Chunk<T>(arr: seq<T>, n: nat): seq<seq<T>> {
    ChunkUpto(arr, n, |arr|)
  }

  /** The number of batches, `ceil(len / n)`. */
  function BatchCount(len: nat, n: nat): nat
    requires n > 0
  {
    (len + n - 1) / n
  }

  /** Batch `b` of a split of `arr` into pieces of `n`. */
  function Piece<T>(arr: seq<T>, n: nat, b: nat): seq<T>
    requires b * n <= |arr|
  {
    Slice(arr, b * n, b * n + n)
  }

  /** `b` batches of `n` start before `len` exactly when `b` is below the
      number of batches. */
  lemma BatchCountBounds(len: nat, n: nat, b: nat)
    requires n > 0
    ensures b < BatchCount(len, n) <==> b * n < len
  {
    var c := BatchCount(len, n);
    var r := (len + n - 1) % n;
    assert len + n - 1 == c * n + r;
    if b < c {
      assert b * n <= (c - 1) * n;
    } else {
      assert b * n >= c * n;
    }
  }

  /** The quotient and remainder of `x` by `n` are the ones any
      decomposition `q * n + r` with `0 <= r < n` shows. */
  lemma DivMod(x: nat, n: nat, q: nat, r: nat)
    requires 0 <= r < n && x == q * n + r
    ensures x / n == q && x % n == r
  {
    var q', r' := x / n, x % n;
    assert (q - q') * n == r' - r by {
      assert q' * n + r' == q * n + r;
      Distribute(q, q', n);
    }
    if q' < q {
      MulAtLeast(q - q', n);
    } else if q' > q {
      MulAtLeast(q' - q, n);
    }
  }

  lemma Distribute(a: int, b: int, n: int)
    ensures (a - b) * n == a * n - b * n
  {
  }

  lemma MulAtLeast(d: int, n: int)
    requires d >= 1 && n >= 0
    ensures d * n >= n
  {
  }

  /** One more index leaves the batch count unchanged unless the index
      starts a new batch. */
  lemma BatchCountStep(i: nat, n: nat)
    requires n > 0
    ensures i % n == 0 ==> BatchCount(i + 1, n) == BatchCount(i, n) + 1 && BatchCount(i, n) * n == i
    ensures i % n != 0 ==> BatchCount(i + 1, n) == BatchCount(i, n)
  {
    var q, r := i / n, i % n;
    assert i == q * n + r;
    if r == 0 {
      DivMod(i + n - 1, n, q, n - 1);
      DivMod(i + n, n, q + 1, 0);
    } else {
      DivMod(i + n - 1, n, q + 1, r - 1);
      DivMod(i + n, n, q + 1, r);
    }
  }

  /** After `k` steps the batches are the pieces of `n` starting below `k`. */
  lemma {:induction false} ChunkUptoShape<T>(arr: seq<T>, n: nat, k: nat)
    requires n > 0 && k <= |arr|
    ensures |ChunkUpto(arr, n, k)| == BatchCount(k, n)
    ensures forall b :: 0 <= b < BatchCount(k, n) ==>
      b * n < |arr| && ChunkUpto(arr, n, k)[b] == Piece(arr, n, b)
  {
    if k > 0 {
      var i := k - 1;
      ChunkUptoShape(arr, n, i);
      BatchCountStep(i, n);
      var a := ChunkUpto(arr, n, i);
      forall b | 0 <= b < BatchCount(k, n)
        ensures b * n < |arr| && ChunkUpto(arr, n, k)[b] == Piece(arr, n, b)
      {
        BatchCountBounds(k, n, b);
        if b < BatchCount(i, n) {
          assert ChunkUpto(arr, n, k)[b] == a[b];
        }
      }
    }
  }

  /** `chunk(arr, n)` is the list of consecutive pieces of `n`: there are
      `ceil(|arr| / n)` of them and batch `b` starts at `b * n`. */
  lemma ChunkShape<T>(arr: seq<T>, n: nat)
    requires n > 0
    ensures |Chunk(arr, n)| == BatchCount(|arr|, n)
    ensures forall b :: 0 <= b < |Chunk(arr, n)| ==>
      b * n < |arr| && Chunk(arr, n)[b] == Piece(arr, n, b)
  {
    ChunkUptoShape(arr, n, |arr|);
  }

  /** Every batch but the last holds exactly `n` items, the last one `1` to
      `n`; an empty list gives no batch. */
  lemma ChunkSizes<T>(arr: seq<T>, n: nat)
    requires n > 0
    ensures arr == [] <==> Chunk(arr, n) == []
    ensures forall b :: 0 <= b < |Chunk(arr, n)| - 1 ==> |Chunk(arr, n)[b]| == n
    ensures Chunk(arr, n) != [] ==> 1 <= |Chunk(arr, n)[|Chunk(arr, n)| - 1]| <= n
  {
    ChunkShape(arr, n);
    var c := Chunk(arr, n);
    BatchCountBounds(|arr|, n, 0);
    forall b | 0 <= b < |c| - 1 ensures |c[b]| == n {
      BatchCountBounds(|arr|, n, b + 1);
      assert (b + 1) * n == b * n + n;
    }
  }

  /** The concatenation of a list of batches. */
  function Flatten<T>(bs: seq<seq<T>>): seq<T> {
    if bs == [] then [] else Flatten(bs[..|bs| - 1]) + bs[|bs| - 1]
  }

  lemma {:induction false} FlattenPieces<T>(arr: seq<T>, n: nat, c: seq<seq<T>>, m: nat)
    requires n > 0 && |c| == BatchCount(|arr|, n) && m <= |c|
    requires forall b :: 0 <= b < |c| ==> b * n < |arr| && c[b] == Piece(arr, n, b)
    ensures Flatten(c[..m]) == arr[..if m * n <= |arr| then m * n else |arr|]
  {
    if m == 0 {
      assert c[..0] == [];
    } else {
      var p := m - 1;
      FlattenPieces(arr, n, c, p);
      assert c[..m][..p] == c[..p];
      var s := p * n;
      assert s < |arr|;
      MulSucc(p, n);
      var e := if s + n <= |arr| then s + n else |arr|;
      assert c[p] == arr[s..e];
      assert Flatten(c[..m]) == Flatten(c[..p]) + c[p];
      assert arr[..s] + arr[s..e] == arr[..e];
    }
  }

  lemma MulSucc(p: int, n: int)
    ensures (p + 1) * n == p * n + n
  {
  }

  /** Concatenating the batches gives the list back. */
  lemma ChunkFlatten<T>(arr: seq<T>, n: nat)
    requires n > 0
    ensures Flatten(Chunk(arr, n)) == arr
  {
    var c := Chunk(arr, n);
    ChunkShape(arr, n);
    FlattenPieces(arr, n, c, |c|);
    assert c[..|c|] == c;
    BatchCountBounds(|arr|, n, |c|);
  }

  // ------------------------------------------------------- the batch body

  /** What the caller passes per draft: `{ to, subject, htmlBody, replyTo? }`. */
  datatype DraftMessage = DraftMessage(to: Cell, subject: Cell, htmlBody: Cell, replyTo: Cell)

  /** One entry of the `$batch` body's `requests`. */
  datatype DraftRequest = DraftRequest(
    id: string, httpMethod: string, url: string, contentType: string,
    subject: Cell, toRecipients: seq<Cell>, replyTo: seq<Cell>,
    bodyType: string, content: Cell)

  /** The Graph `$batch` limit. */
  const BatchLimit: nat := 20

  /** The `i`-th request of a batch, for message `m`. */
  function RequestFor(m: DraftMessage, i: nat): DraftRequest {
    DraftRequest(NatText(i + 1), "POST", "/me/messages", "application/json",
      m.subject, [m.to], if Truthy(m.replyTo) then [m.replyTo] else [],
      "HTML", if Truthy(m.htmlBody) then m.htmlBody else Str(""))
  }

  /** `batch.map((m, i) => ...)`. */
  function BatchBody(batch: seq<DraftMessage>): seq<DraftRequest> {
    seq(|batch|, i requires 0 <= i < |batch| => RequestFor(batch[i], i))
  }

  /** One request per message, in order: the k-th is a POST to
      `/me/messages` with id `String(k + 1)`, so the ids read back as 1..k
      and no two are equal; the recipient and subject are the message's. */
  lemma BatchIds(batch: seq<DraftMessage>)
    ensures |BatchBody(batch)| == |batch|
    ensures forall i :: 0 <= i < |batch| ==>
      var q := BatchBody(batch)[i];
      (forall c :: 0 <= c < |q.id| ==> IsDigit(q.id[c])) && DigitsValue(q.id) == i + 1
      && q.httpMethod == "POST" && q.url == "/me/messages"
      && q.toRecipients == [batch[i].to] && q.subject == batch[i].subject
    ensures forall i, j :: 0 <= i < j < |batch| ==> BatchBody(batch)[i].id != BatchBody(batch)[j].id
  {
    var body := BatchBody(batch);
    forall i | 0 <= i < |batch| ensures DigitsValue(body[i].id) == i + 1 {
      NatTextRoundTrip(i + 1);
    }
    forall i, j | 0 <= i < j < |batch| ensures body[i].id != body[j].id {
      assert DigitsValue(body[i].id) != DigitsValue(body[j].id);
    }
  }

  /** `replyTo` is empty when the message has none (or a falsy one) and the
      one-address list otherwise; a missing body becomes "". */
  lemma RequestOptionals(m: DraftMessage, i: nat)
    ensures RequestFor(m, i).replyTo == [] <==> !Truthy(m.replyTo)
    ensures Truthy(m.replyTo) ==> RequestFor(m, i).replyTo == [m.replyTo]
    ensures Nullish(m.htmlBody) ==> RequestFor(m, i).content == Str("")
    ensures OrEmpty(RequestFor(m, i).content) == (if Truthy(m.htmlBody) then OrEmpty(m.htmlBody) else "")
  {
  }

  /** With twenty to a batch, no `$batch` request carries more than twenty
      sub-requests, and none is empty. */
  lemma BatchesWithinLimit(messages: seq<DraftMessage>)
    ensures forall b :: 0 <= b < |Chunk(messages, BatchLimit)| ==>
      1 <= |BatchBody(Chunk(messages, BatchLimit)[b])| <= BatchLimit
  {
    var c := Chunk(messages, BatchLimit);
    ChunkSizes(messages, BatchLimit);
    ChunkShape(messages, BatchLimit);
  }

  // ------------------------------------------------------ the responses

  /** The part of a response body `created` reads: `id`, `subject` and the
      first recipient's address (`undefined` when the chain breaks). */
  datatype DraftInfo = DraftInfo(id: Cell, subject: Cell, to: Cell)

  /** One entry of `result.responses`; `body` is `None` when it is missing. */
  datatype BatchResponse = BatchResponse(status: int, body: Option<DraftInfo>)

  predicate Is2xx(r: BatchResponse) {
    200 <= r.status < 300
  }

  function CreatedFrom(r: BatchResponse): DraftInfo {
    r.body.GetOr(DraftInfo(Undefined, Undefined, Undefined))
  }

  /** Reading `r.body.id` of a 2xx response without a body throws. */
  const MissingBody := "TypeError: Cannot read properties of undefined (reading 'id')"

  /** What the `$batch` call answers for a body: its responses, or the
      error `graphFetch` throws. */
  type Respond = seq<DraftRequest> -> Result<seq<BatchResponse>, string>

  /** The batch's call succeeded and each of its 2xx answers has a body. */
  predicate Answered(respond: Respond, batch: seq<DraftMessage>) {
    var res := respond(BatchBody(batch));
    res.Success? && forall t :: 0 <= t < |res.value| && Is2xx(res.value[t]) ==> res.value[t].body.Some?
  }

  function ResponsesOf(respond: Respond, batch: seq<DraftMessage>): seq<BatchResponse> {
    match respond(BatchBody(batch))
    case Success(rs) => rs
    case Failure(_) => []
  }

  /** The responses of all batches, batch after batch. */
  function AllResponses(respond: Respond, bs: seq<seq<DraftMessage>>): seq<BatchResponse> {
    if bs == [] then [] else AllResponses(respond, bs[..|bs| - 1]) + ResponsesOf(respond, bs[|bs| - 1])
  }

  /** The drafts are the 2xx responses in response order: entry `k` comes
      from a 2xx response, every 2xx response gives one, and a non-2xx
      response adds nothing. */
  lemma CreatedEntries(rs: seq<BatchResponse>) returns (idx: seq<nat>)
    ensures |idx| == |Select(rs, Is2xx, CreatedFrom)|
    ensures forall a, b :: 0 <= a < b < |idx| ==> idx[a] < idx[b]
    ensures forall k :: 0 <= k < |idx| ==>
      idx[k] < |rs| && Is2xx(rs[idx[k]]) && Select(rs, Is2xx, CreatedFrom)[k] == CreatedFrom(rs[idx[k]])
    ensures forall t :: 0 <= t < |rs| && Is2xx(rs[t]) ==> t in idx
  {
    idx := SelectIndices(rs, Is2xx, CreatedFrom);
  }

  /** The inner loop over `result.responses`: each 2xx response pushes its
      draft onto `created`; one without a body throws. */
  method PushCreated(created: seq<DraftInfo>, rs: seq<BatchResponse>) returns (r: Result<seq<DraftInfo>, string>)
    ensures r.Success? <==> forall t :: 0 <= t < |rs| && Is2xx(rs[t]) ==> rs[t].body.Some?
    ensures r.Success? ==> r.value == created + Select(rs, Is2xx, CreatedFrom)
    ensures r.Failure? ==> r.error == MissingBody
  {
    var acc := created;
    var t := 0;
    while t < |rs|
      invariant t <= |rs|
      invariant forall u :: 0 <= u < t && Is2xx(rs[u]) ==> rs[u].body.Some?
      invariant acc == created + Select(rs[..t], Is2xx, CreatedFrom)
    {
      var resp := rs[t];
      if Is2xx(resp) {
        if resp.body.None? {
          return Failure(MissingBody);
        }
        acc := acc + [resp.body.value];
      }
      assert rs[..t + 1][..t] == rs[..t];
      t := t + 1;
    }
    assert rs[..t] == rs;
    return Success(acc);
  }

  /** The loop of `createDrafts` over the batches `bs`: they are posted one
      after another; the first failing call (or 2xx answer without a body)
      ends the whole call with its error, otherwise `created` holds one
      entry per 2xx response over all batches, in order. `posted` lists the
      batches whose `$batch` body (`BatchBody`) was sent, in order. */
  method PostBatches(bs: seq<seq<DraftMessage>>, respond: Respond)
    returns (r: Result<seq<DraftInfo>, string>, posted: seq<seq<DraftMessage>>)
    ensures |posted| <= |bs| && posted == bs[..|posted|]
    ensures r.Success? <==> forall b :: 0 <= b < |bs| ==> Answered(respond, bs[b])
    ensures r.Success? ==> |posted| == |bs| && r.value == Select(AllResponses(respond, bs), Is2xx, CreatedFrom)
    ensures r.Failure? ==> 0 < |posted| && !Answered(respond, bs[|posted| - 1])
    ensures r.Failure? ==> forall b :: 0 <= b < |posted| - 1 ==> Answered(respond, bs[b])
  {
    var created: seq<DraftInfo> := [];
    posted := [];
    var b := 0;
    while b < |bs|
      invariant b <= |bs| && posted == bs[..b]
      invariant forall i :: 0 <= i < b ==> Answered(respond, bs[i])
      invariant created == Select(AllResponses(respond, bs[..b]), Is2xx, CreatedFrom)
    {
      var body := BatchBody(bs[b]);
      posted := bs[..b + 1];
      var result := respond(body);
      if result.Failure? {
        return Failure(result.error), posted;
      }
      var rs := result.value;
      var pushed := PushCreated(created, rs);
      if pushed.Failure? {
        return Failure(pushed.error), posted;
      }
      created := pushed.value;
      assert bs[..b + 1][..b] == bs[..b];
      SelectAppend(AllResponses(respond, bs[..b]), rs, Is2xx, CreatedFrom);
      assert AllResponses(respond, bs[..b + 1]) == AllResponses(respond, bs[..b]) + rs;
      b := b + 1;
    }
    assert bs[..b] == bs;
    r := Success(created);
  }

  /** `createDrafts(messages)`: the batches of twenty, posted in turn. */
  method CreateDrafts(messages: seq<DraftMessage>, respond: Respond)
    returns (r: Result<seq<DraftInfo>, string>, posted: seq<seq<DraftMessage>>)
    ensures var bs := Chunk(messages, BatchLimit);
      |posted| <= |bs| && posted == bs[..|posted|]
      && (r.Success? <==> forall b :: 0 <= b < |bs| ==> Answered(respond, bs[b]))
      && (r.Success? ==> |posted| == |bs| && r.value == Select(AllResponses(respond, bs), Is2xx, CreatedFrom))
      && (r.Failure? ==> 0 < |posted| && !Answered(respond, bs[|posted| - 1])
                         && forall b :: 0 <= b < |posted| - 1 ==> Answered(respond, bs[b]))
  {
    r, posted := PostBatches(Chunk(messages, BatchLimit), respond);
  }
}
