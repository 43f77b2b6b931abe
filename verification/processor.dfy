/** processor.py: listing a mailbox page by page, fetching every message's metadata in batches
    of 250, and the callback that sorts each batch reply into one of two queues.

    The Gmail service is out of view. A listing is the sequence of pages the service answers
    the successive `list` requests with, and the answers to the `get` requests are a sequence
    of replies, one per request, in request order. */
module Processing {
  import opened Wrappers
  import opened Helpers

  /** An entry of a `list` response: `{'id': ..., 'threadId': ...}`. */
  datatype MessageRef = MessageRef(id: string, threadId: string)

  /** A `list` response; each of its keys may be missing. */
  datatype Page = Page(
    messages: Option<seq<MessageRef>>,
    nextPageToken: Option<string>,
    resultSizeEstimate: Option<int>)

  /** One entry of `payload.headers`. */
  datatype Header = Header(name: string, value: string)

  /** A `get` response, reduced to the keys the callback reads. */
  datatype Message = Message(id: string, labelIds: seq<string>, headers: seq<Header>)

  /** What the batch hands the callback: a response, or an `HttpError` carrying the request's uri. */
  datatype Reply = Fetched(response: Message) | Failed(uri: string)

  /** `{'from': ..., 'date': ...}`; `None` when the header is missing. */
  datatype Fields = Fields(from: Option<string>, date: Option<string>)

  /** `{'id': ..., 'labels': ..., 'fields': ...}`, one entry of `messagesQueue`. */
  datatype MessageRecord = MessageRecord(id: string, labels: seq<string>, fields: Fields)

  /** Requests per batch. */
  const BatchSize: nat := 250

  // ------------------------------------------------------------------
  // get_messages
  // ------------------------------------------------------------------

  /** Some page of the listing has no `nextPageToken`, so the cursor loop stops there. */
  predicate Ends(pages: seq<Page>) {
    exists i :: 0 <= i < |pages| && pages[i].nextPageToken.None?
  }

  /** The page at which the cursor loop stops: the first one without a `nextPageToken`. */
  function LastPage(pages: seq<Page>): (k: nat)
    requires Ends(pages)
    ensures k < |pages| && pages[k].nextPageToken.None?
    ensures forall i :: 0 <= i < k ==> pages[i].nextPageToken.Some?
  {
    if pages[0].nextPageToken.None? then 0
    else
      var j :| 0 <= j < |pages| && pages[j].nextPageToken.None?;
      assert Ends(pages[1..]) by {
        assert pages[1..][j - 1].nextPageToken.None?;
      }
      1 + LastPage(pages[1..])
  }

  /** The messages gathered from the first `n` pages: the first page's `messages` if it has any,
      then each later page's `messages`, which must be there. */
  function Gathered(pages: seq<Page>, n: nat): (r: Result<seq<MessageRef>, Exception>)
    requires 1 <= n <= |pages|
    ensures r.Err? ==> r.error == KeyError("messages")
  {
    if n == 1 then
      Ok(if pages[0].messages.Some? then pages[0].messages.value else [])
    else
      var before :- Gathered(pages, n - 1);
      if pages[n - 1].messages.None? then Err(KeyError("messages"))
      else Ok(before + pages[n - 1].messages.value)
  }

  /** What get_messages returns or raises for a listing. */
  function ListAll(pages: seq<Page>): Result<seq<MessageRef>, Exception>
    requires Ends(pages)
  {
    if pages[0].resultSizeEstimate.None? then Err(KeyError("resultSizeEstimate"))
    else Gathered(pages, LastPage(pages) + 1)
  }

  /** A page's messages, or nothing when it has none. */
  function MessagesOf(page: Page): seq<MessageRef> {
    if page.messages.Some? then page.messages.value else []
  }

  /** The pages' messages laid end to end, page by page. */
  function AllMessages(pages: seq<Page>): seq<MessageRef> {
    if |pages| == 0 then [] else MessagesOf(pages[0]) + AllMessages(pages[1..])
  }

  // ------------------------------------------------------------------
  // process_message
  // ------------------------------------------------------------------

  /** `next((h['value'] for h in headers if h['name'] == name), None)`. */
  function FirstHeader(headers: seq<Header>, name: string): (r: Option<string>)
    ensures r.None? <==> forall i :: 0 <= i < |headers| ==> headers[i].name != name
    ensures r.Some? ==> exists i :: (0 <= i < |headers| && headers[i].name == name
      && headers[i].value == r.value && forall j :: 0 <= j < i ==> headers[j].name != name)
  {
    if |headers| == 0 then None
    else if headers[0].name == name then Some(headers[0].value)
    else
      var r := FirstHeader(headers[1..], name);
      assert forall i :: 1 <= i < |headers| ==> headers[i] == headers[1..][i - 1];
      if r.Some? then
        var i :| 0 <= i < |headers[1..]| && headers[1..][i].name == name
          && headers[1..][i].value == r.value && forall j :: 0 <= j < i ==> headers[1..][j].name != name;
        assert headers[i + 1].name == name && headers[i + 1].value == r.value;
        r
      else r
  }

  /** The record the callback keeps for a fetched message. */
  function RecordOf(m: Message): MessageRecord {
    MessageRecord(m.id, m.labelIds, Fields(FirstHeader(m.headers, "From"), FirstHeader(m.headers, "Date")))
  }

  /** The records that a run of callbacks appends to `messagesQueue`, in order. */
  function Captured(replies: seq<Reply>): seq<MessageRecord> {
    if |replies| == 0 then []
    else
      var last := replies[|replies| - 1];
      Captured(replies[..|replies| - 1]) + (if last.Fetched? then [RecordOf(last.response)] else [])
  }

  /** The uris that a run of callbacks appends to `failedMessagesQueue`, in order. */
  function FailedUris(replies: seq<Reply>): seq<string> {
    if |replies| == 0 then []
    else
      var last := replies[|replies| - 1];
      FailedUris(replies[..|replies| - 1]) + (if last.Failed? then [last.uri] else [])
  }

  // ------------------------------------------------------------------
  // get_metadata
  // ------------------------------------------------------------------

  /** The ids of a run of list entries. */
  function Ids(messages: seq<MessageRef>): (ids: seq<string>)
    ensures |ids| == |messages|
  {
    if |messages| == 0 then [] else Ids(messages[..|messages| - 1]) + [messages[|messages| - 1].id]
  }

  class Processor {
    var messagesQueue: seq<MessageRecord>
    var failedMessagesQueue: seq<string>

    /** Both queues start empty. */
    constructor()
      ensures messagesQueue == [] && failedMessagesQueue == []
    {
      messagesQueue := [];
      failedMessagesQueue := [];
    }

    /** get_messages: one `list` request, then one more per `nextPageToken`, each carrying that
        token. `requests` holds the page token of every request made, `None` for the first. */
    method GetMessages(pages: seq<Page>) returns (r: Result<seq<MessageRef>, Exception>, requests: seq<Option<string>>)
      requires Ends(pages)
      ensures r == ListAll(pages)
      ensures 1 <= |requests| <= LastPage(pages) + 1 && requests[0] == None
      ensures forall i :: 1 <= i < |requests| ==> requests[i] == pages[i - 1].nextPageToken
      ensures r.Ok? ==> |requests| == LastPage(pages) + 1
      ensures r == Err(KeyError("resultSizeEstimate")) ==> |requests| == 1
      ensures r == Err(KeyError("messages")) ==> |requests| > 1 && pages[|requests| - 1].messages.None?
      ensures r == Err(KeyError("messages")) ==> forall j :: 1 <= j < |requests| - 1 ==> pages[j].messages.Some?
    {
      requests := [None];
      var response := pages[0];
      if response.resultSizeEstimate.None? {
        return Err(KeyError("resultSizeEstimate")), requests;
      }
      var messages: seq<MessageRef> := [];
      if response.messages.Some? {
        messages := messages + response.messages.value;
        assert messages == response.messages.value;
      }
      var i := 0;
      while response.nextPageToken.Some?
        invariant 0 <= i <= LastPage(pages) && response == pages[i]
        invariant |requests| == i + 1 && requests[0] == None
        invariant forall j :: 1 <= j < |requests| ==> requests[j] == pages[j - 1].nextPageToken
        invariant Gathered(pages, i + 1) == Ok(messages)
        invariant forall j :: 1 <= j <= i ==> pages[j].messages.Some?
        decreases LastPage(pages) - i
      {
        var pageToken := response.nextPageToken.value;
        requests := requests + [Some(pageToken)];
        i := i + 1;
        response := pages[i];
        if response.messages.None? {
          GatheredErrStays(pages, i + 1, LastPage(pages) + 1);
          return Err(KeyError("messages")), requests;
        }
        messages := messages + response.messages.value;
      }
      return Ok(messages), requests;
    }

    /** process_message: a failed request adds its uri to `failedMessagesQueue`; a fetched
        message adds its record to `messagesQueue`. The other queue is left as it was. */
    method ProcessMessage(reply: Reply)
      modifies this
      ensures reply.Failed? ==> (failedMessagesQueue == old(failedMessagesQueue) + [reply.uri]
        && messagesQueue == old(messagesQueue))
      ensures reply.Fetched? ==> (messagesQueue == old(messagesQueue) + [RecordOf(reply.response)]
        && failedMessagesQueue == old(failedMessagesQueue))
    {
      if reply.Failed? {
        failedMessagesQueue := failedMessagesQueue + [reply.uri];
        return;
      }
      var headers := reply.response.headers;
      var date := FirstHeader(headers, "Date");
      var from := FirstHeader(headers, "From");
      messagesQueue := messagesQueue + [MessageRecord(reply.response.id, reply.response.labelIds, Fields(from, date))];
    }

    /** `batch.execute()`: the callback runs once per request, in the order the requests were
        added; `replies` holds what the service answered to each of them. */
    method ExecuteBatch(replies: seq<Reply>)
      modifies this
      ensures messagesQueue == old(messagesQueue) + Captured(replies)
      ensures failedMessagesQueue == old(failedMessagesQueue) + FailedUris(replies)
    {
      for j := 0 to |replies|
        invariant messagesQueue == old(messagesQueue) + Captured(replies[..j])
        invariant failedMessagesQueue == old(failedMessagesQueue) + FailedUris(replies[..j])
      {
        ProcessMessage(replies[j]);
        assert replies[..j + 1][..j] == replies[..j];
      }
      assert replies[..|replies|] == replies;
    }

    /** The inner loop of get_metadata: one `get` request per list entry, in order. */
    method AddRequests(group: seq<MessageRef>) returns (batch: seq<string>)
      ensures batch == Ids(group)
    {
      batch := [];
      for j := 0 to |group|
        invariant batch == Ids(group[..j])
      {
        assert group[..j + 1][..j] == group[..j];
        batch := batch + [group[j].id];
      }
      assert group[..|group|] == group;
    }

    /** get_metadata: `chunks(messages, 250)` hands out the slices starting at 0, 250, 500, ...;
        each slice becomes one batch of `get` requests, the batch is executed, and the progress
        bar advances by the slice's length. `replies[i]` is the service's answer to the request
        for `messages[i]`; `batches` holds the ids each batch requests and `progress` the total
        advance of the bar. */
    method GetMetadata(messages: seq<MessageRef>, replies: seq<Reply>)
      returns (batches: seq<seq<string>>, progress: nat)
      requires |replies| == |messages|
      modifies this
      ensures Flatten(batches) == Ids(messages)
      ensures |batches| == ChunkCount(|messages|, BatchSize)
      ensures forall b :: 0 <= b < |batches| ==> 1 <= |batches[b]| <= BatchSize
      ensures forall b :: 0 <= b < |batches| - 1 ==> |batches[b]| == BatchSize
      ensures progress == |messages|
      ensures messagesQueue == old(messagesQueue) + Captured(replies)
      ensures failedMessagesQueue == old(failedMessagesQueue) + FailedUris(replies)
    {
      batches := [];
      progress := 0;
      var start := 0;
      while start < |messages|
        invariant start <= |messages| && progress == start
        invariant BatchShape(batches, start, |messages|)
        invariant Flatten(batches) == Ids(messages[..start])
        invariant messagesQueue == old(messagesQueue) + Captured(replies[..start])
        invariant failedMessagesQueue == old(failedMessagesQueue) + FailedUris(replies[..start])
        decreases |messages| - start
      {
        var end := Min(start + BatchSize, |messages|);
        var group := messages[start..end];
        var batch := AddRequests(group);
        ExecuteBatch(replies[start..end]);
        QueuesAppend(replies, start, end, old(messagesQueue), old(failedMessagesQueue));
        NextBatch(batches, messages, start, end);
        NextBatchShape(batches, batch, start, end, |messages|);
        batches := batches + [batch];
        progress := progress + |batch|;
        start := end;
      }
      assert messages[..start] == messages && replies[..start] == replies;
    }
  }

  // ------------------------------------------------------------------
  // Lemmas
  // ------------------------------------------------------------------

  lemma {:induction false} FlattenSnoc<T>(xss: seq<seq<T>>, xs: seq<T>)
    ensures Flatten(xss + [xs]) == Flatten(xss) + xs
  {
    if xss == [] {
      assert [xs][1..] == [];
    } else {
      assert (xss + [xs])[1..] == xss[1..] + [xs];
      FlattenSnoc(xss[1..], xs);
    }
  }

  /** The sizes of the batches cut so far from a list of `total` entries, `start` of them
      handed out: full batches of 250, possibly followed by a last, shorter one. */
  predicate BatchShape(batches: seq<seq<string>>, start: nat, total: nat) {
    && |batches| == ChunkCount(start, BatchSize)
    && (forall b :: 0 <= b < |batches| ==> 1 <= |batches[b]| <= BatchSize)
    && (forall b :: 0 <= b < |batches| - 1 ==> |batches[b]| == BatchSize)
    && (start < total ==> start == |batches| * BatchSize && forall b :: 0 <= b < |batches| ==> |batches[b]| == BatchSize)
  }

  /** Adding the batch for `messages[start..end]` keeps the list of requested ids in step. */
  lemma NextBatch(batches: seq<seq<string>>, messages: seq<MessageRef>, start: nat, end: nat)
    requires start <= end <= |messages|
    requires Flatten(batches) == Ids(messages[..start])
    ensures Flatten(batches + [Ids(messages[start..end])]) == Ids(messages[..end])
  {
    FlattenSnoc(batches, Ids(messages[start..end]));
    assert messages[..end] == messages[..start] + messages[start..end];
    IdsAppend(messages[..start], messages[start..end]);
  }

  /** Adding the batch for the next slice keeps the batch sizes in shape. */
  lemma NextBatchShape(batches: seq<seq<string>>, batch: seq<string>, start: nat, end: nat, total: nat)
    requires BatchShape(batches, start, total) && start < total
    requires end == Min(start + BatchSize, total) && |batch| == end - start
    ensures BatchShape(batches + [batch], end, total)
  {
    DivUnique(end + BatchSize - 1, BatchSize, |batches| + 1, end - start - 1);
  }

  /** Running the callbacks for `replies[..j]` and then for `replies[j..k]` is running them for
      `replies[..k]`, whatever the queues held before. */
  lemma QueuesAppend(replies: seq<Reply>, j: nat, k: nat, records: seq<MessageRecord>, uris: seq<string>)
    requires j <= k <= |replies|
    ensures records + Captured(replies[..j]) + Captured(replies[j..k]) == records + Captured(replies[..k])
    ensures uris + FailedUris(replies[..j]) + FailedUris(replies[j..k]) == uris + FailedUris(replies[..k])
  {
    assert replies[..k] == replies[..j] + replies[j..k];
    CapturedAppend(replies[..j], replies[j..k]);
  }

  /** Once a page is missing its `messages`, every longer prefix of the listing fails too. */
  lemma {:induction false} GatheredErrStays(pages: seq<Page>, n: nat, m: nat)
    requires 1 <= n <= m <= |pages| && Gathered(pages, n).Err?
    ensures Gathered(pages, m).Err?
    decreases m - n
  {
    if n < m {
      GatheredErrStays(pages, n + 1, m);
    }
  }

  lemma {:induction false} IdsAppend(a: seq<MessageRef>, b: seq<MessageRef>)
    ensures Ids(a + b) == Ids(a) + Ids(b)
    decreases |b|
  {
    if |b| > 0 {
      assert (a + b)[..|a + b| - 1] == a + b[..|b| - 1];
      IdsAppend(a, b[..|b| - 1]);
    } else {
      assert a + b == a;
    }
  }

  /** `Ids` lists each entry's id, at the entry's own position. */
  lemma {:induction false} IdsAt(messages: seq<MessageRef>)
    ensures forall i :: 0 <= i < |messages| ==> Ids(messages)[i] == messages[i].id
  {
    if |messages| > 0 {
      IdsAt(messages[..|messages| - 1]);
    }
  }

  /** Replaying two runs of callbacks one after the other appends what each run appends. */
  lemma {:induction false} CapturedAppend(a: seq<Reply>, b: seq<Reply>)
    ensures Captured(a + b) == Captured(a) + Captured(b)
    ensures FailedUris(a + b) == FailedUris(a) + FailedUris(b)
    decreases |b|
  {
    if |b| > 0 {
      var b' := b[..|b| - 1];
      assert (a + b)[..|a + b| - 1] == a + b';
      CapturedAppend(a, b');
    } else {
      assert a + b == a;
    }
  }

  lemma {:induction false} AllMessagesSnoc(pages: seq<Page>, p: Page)
    ensures AllMessages(pages + [p]) == AllMessages(pages) + MessagesOf(p)
  {
    if |pages| == 0 {
      assert (pages + [p])[1..] == [];
    } else {
      assert (pages + [p])[1..] == pages[1..] + [p];
      AllMessagesSnoc(pages[1..], p);
    }
  }

  /** The first `n` pages gather without error exactly when every page after the first has a
      `messages` key, and then they gather all their messages in page order. */
  lemma {:induction false} GatheredMeaning(pages: seq<Page>, n: nat)
    requires 1 <= n <= |pages|
    ensures Gathered(pages, n).Ok? <==> forall i :: 1 <= i < n ==> pages[i].messages.Some?
    ensures Gathered(pages, n).Ok? ==> Gathered(pages, n).value == AllMessages(pages[..n])
  {
    if n == 1 {
      assert pages[..1][1..] == [];
      assert AllMessages(pages[..1]) == MessagesOf(pages[0]) + [];
    } else {
      GatheredMeaning(pages, n - 1);
      assert pages[..n] == pages[..n - 1] + [pages[n - 1]];
      AllMessagesSnoc(pages[..n - 1], pages[n - 1]);
    }
  }

  /** get_messages returns every message of every page up to the first page without a
      `nextPageToken`, page by page and in each page's order. It raises `KeyError` when the
      first page has no `resultSizeEstimate`, or when a later page has no `messages`; the first
      page alone may lack `messages`. */
  lemma ListAllMeaning(pages: seq<Page>)
    requires Ends(pages)
    ensures ListAll(pages).Ok? <==>
      pages[0].resultSizeEstimate.Some? && forall i :: 1 <= i <= LastPage(pages) ==> pages[i].messages.Some?
    ensures ListAll(pages).Ok? ==> ListAll(pages).value == AllMessages(pages[..LastPage(pages) + 1])
    ensures pages[0].resultSizeEstimate.None? ==> ListAll(pages) == Err(KeyError("resultSizeEstimate"))
    ensures pages[0].resultSizeEstimate.Some? && ListAll(pages).Err? ==> ListAll(pages) == Err(KeyError("messages"))
  {
    if pages[0].resultSizeEstimate.Some? {
      GatheredMeaning(pages, LastPage(pages) + 1);
    }
  }

  /** Two listings that agree on which keys each page has and on every page's messages. */
  predicate SameShape(pages: seq<Page>, other: seq<Page>) {
    |pages| == |other|
    && (forall i :: 0 <= i < |pages| ==> pages[i].messages == other[i].messages)
    && (forall i :: 0 <= i < |pages| ==> pages[i].nextPageToken.Some? == other[i].nextPageToken.Some?)
    && (forall i :: 0 <= i < |pages| ==> pages[i].resultSizeEstimate.Some? == other[i].resultSizeEstimate.Some?)
  }

  /** The value of `resultSizeEstimate` (only scaled into the unused `est_max`) and the values of
      the page tokens have no effect on what get_messages returns or how many pages it reads. */
  lemma {:induction false} ListAllIgnoresValues(pages: seq<Page>, other: seq<Page>)
    requires Ends(pages) && SameShape(pages, other)
    ensures Ends(other) && LastPage(other) == LastPage(pages)
    ensures ListAll(other) == ListAll(pages)
  {
    var k := LastPage(pages);
    assert other[k].nextPageToken.None?;
    assert LastPage(other) == k by {
      var k' := LastPage(other);
      assert pages[k'].nextPageToken.None?;
    }
    if pages[0].resultSizeEstimate.Some? {
      GatheredSame(pages, other, k + 1);
    }
  }

  lemma {:induction false} GatheredSame(pages: seq<Page>, other: seq<Page>, n: nat)
    requires SameShape(pages, other) && 1 <= n <= |pages|
    ensures Gathered(other, n) == Gathered(pages, n)
  {
    if n > 1 {
      GatheredSame(pages, other, n - 1);
    }
  }

  /** Every callback adds to exactly one queue: together they grow by one entry per reply. */
  lemma {:induction false} CallbacksPartition(replies: seq<Reply>)
    ensures |Captured(replies)| + |FailedUris(replies)| == |replies|
    ensures |Captured(replies)| == |set i | 0 <= i < |replies| && replies[i].Fetched?|
  {
    if |replies| > 0 {
      var init := replies[..|replies| - 1];
      CallbacksPartition(init);
      var s := set i | 0 <= i < |replies| && replies[i].Fetched?;
      var s0 := set i | 0 <= i < |init| && init[i].Fetched?;
      if replies[|replies| - 1].Fetched? {
        assert s == s0 + {|replies| - 1};
      } else {
        assert s == s0;
      }
    }
  }

  /** Headers are matched by their exact name: a `date` header is not a `Date` header, and the
      first `Date` header wins. */
  lemma FirstHeaderExample()
    ensures FirstHeader([Header("date", "a"), Header("Date", "b"), Header("Date", "c")], "Date") == Some("b")
    ensures FirstHeader([Header("date", "a")], "Date") == None
  {
  }

  /** A three-page listing whose first page has no messages, and a two-page listing whose
      second page has none. */
  lemma ListAllExample(a: MessageRef, b: MessageRef, c: MessageRef, p: seq<Page>, q: seq<Page>)
    requires p == [Page(None, Some("t1"), Some(0)), Page(Some([a, b]), Some("t2"), None), Page(Some([c]), None, None)]
    requires q == [Page(Some([a]), Some("t1"), Some(0)), Page(None, None, None)]
    ensures Ends(p) && ListAll(p) == Ok([a, b, c])
    ensures Ends(q) && ListAll(q) == Err(KeyError("messages"))
  {
    assert p[2].nextPageToken.None?;
    assert LastPage(p) == 2;
    assert Gathered(p, 1) == Ok([]);
    assert Gathered(p, 2) == Ok([] + [a, b]);
    assert [] + [a, b] == [a, b];
    assert Gathered(p, 3) == Ok([a, b] + [c]);
    assert [a, b] + [c] == [a, b, c];
    assert ListAll(p) == Gathered(p, 3);
    assert q[1].nextPageToken.None?;
    assert LastPage(q) == 1;
  }
}
