/** The message normalisation of `checkEmailAccount` in server.js.

    The two provider calls are inputs: the list response (failed, not an
    array, or an array of items) and, for each listed item, the outcome of its
    detail request. A detail request that fails, or that answers without a
    body object, raises inside the per-item `try` and the item is skipped. A
    `null` entry of the list raises again inside that `try`'s own handler
    (which reads `msg.id` to log), so the whole poll ends in the outer handler
    with no messages. */
module Mailbox {
  import opened Wrappers
  import opened Otp

  /** One entry of the provider's message list. `timestamp` stands for
      `new Date(date).getTime()`, which the model takes as given. */
  datatype RawItem = RawItem(id: int, from: string, subject: Option<string>, date: string, timestamp: int)

  /** The body object of a detail response. */
  datatype Detail = Detail(textBody: Option<string>, htmlBody: Option<string>)

  /** The outcome of one detail request: a transport error, or a response whose
      `data` may be missing. */
  datatype DetailFetch = FetchFailed | Fetched(data: Option<Detail>)

  /** An entry of the list: an item together with the outcome of its detail
      request, or `null`. */
  datatype Polled = Polled(item: RawItem, detail: DetailFetch) | NullEntry

  /** The outcome of the list request. */
  datatype ListResponse = ListFailed | NotAnArray | Items(polled: seq<Polled>)

  /** A normalised inbox message. */
  datatype Message = Message(
    id: int, from: string, subject: string, body: string,
    date: string, timestamp: int, otp: Option<string>)

  const NoSubject: string := "No Subject"

  /** `msg.subject || 'No Subject'`. */
  function SubjectOf(raw: Option<string>): (s: string)
    ensures s != ""
    ensures Truthy(raw) ==> s == raw.value
    ensures s == NoSubject <==> !Truthy(raw) || raw.value == NoSubject
  {
    if Truthy(raw) then raw.value else NoSubject
  }

  /** `data.textBody || data.htmlBody || ''`. */
  function BodyOf(d: Detail): (b: string)
    ensures Truthy(d.textBody) ==> b == d.textBody.value
    ensures !Truthy(d.textBody) && Truthy(d.htmlBody) ==> b == d.htmlBody.value
    ensures !Truthy(d.textBody) && !Truthy(d.htmlBody) ==> b == ""
  {
    if Truthy(d.textBody) then d.textBody.value
    else if Truthy(d.htmlBody) then d.htmlBody.value
    else ""
  }

  /** The detail request of the item succeeded with a body object. */
  predicate Readable(p: Polled) {
    p.Polled? && p.detail.Fetched? && p.detail.data.Some?
  }

  /** Some entry of the list is `null`. */
  predicate HasNull(ps: seq<Polled>) {
    exists k :: 0 <= k < |ps| && ps[k].NullEntry?
  }

  /** The `messageData` record built for a readable item. */
  function ToMessage(p: Polled): (m: Message)
    requires Readable(p)
  {
    var subject := SubjectOf(p.item.subject);
    var body := BodyOf(p.detail.data.value);
    Message(p.item.id, p.item.from, subject, body, p.item.date, p.item.timestamp,
            ExtractOtp(subject + " " + body))
  }

  /** The message invariant that normalisation establishes: a non-empty
      subject, and the code is the one found in subject and body. */
  predicate Normalised(m: Message) {
    m.subject != "" && m.otp == ExtractOtp(m.subject + " " + m.body)
  }

  /** The message `ToMessage` builds from the item `p`. */
  predicate BuiltFrom(m: Message, p: Polled) {
    && Readable(p)
    && m.id == p.item.id && m.from == p.item.from && m.date == p.item.date
    && m.timestamp == p.item.timestamp
    && m.subject == SubjectOf(p.item.subject)
    && m.body == BodyOf(p.detail.data.value)
  }

  lemma ToMessageNormalised(p: Polled)
    requires Readable(p)
    ensures Normalised(ToMessage(p)) && BuiltFrom(ToMessage(p), p)
  {
  }

  /** The readable items, in provider order: the reference for what survives. */
  function Readables(ps: seq<Polled>): (r: seq<Polled>)
  {
    if ps == [] then []
    else if Readable(ps[0]) then [ps[0]] + Readables(ps[1..])
    else Readables(ps[1..])
  }

  /** The number of items whose detail request failed. */
  function Unreadable(ps: seq<Polled>): nat
  {
    if ps == [] then 0
    else (if Readable(ps[0]) then 0 else 1) + Unreadable(ps[1..])
  }

  function MessagesOf(ps: seq<Polled>): (ms: seq<Message>)
    requires forall k :: 0 <= k < |ps| ==> Readable(ps[k])
    ensures |ms| == |ps|
  {
    seq(|ps|, k requires 0 <= k < |ps| => ToMessage(ps[k]))
  }

  lemma {:induction false} ReadablesAreReadable(ps: seq<Polled>)
    ensures forall k :: 0 <= k < |Readables(ps)| ==> Readable(Readables(ps)[k])
  {
    if ps != [] {
      ReadablesAreReadable(ps[1..]);
    }
  }

  /** One message per readable entry, in list order. */
  function Isolated(ps: seq<Polled>): (ms: seq<Message>)
  {
    ReadablesAreReadable(ps);
    MessagesOf(Readables(ps))
  }

  /** The result of the normalisation for a list response, as written: a
      `null` entry anywhere discards the whole poll. */
  function Normalize(resp: ListResponse): (ms: seq<Message>)
  {
    if resp.Items? && !HasNull(resp.polled) then Isolated(resp.polled) else []
  }

  /** The normalisation as evidently intended: every entry that cannot be
      read, `null` ones included, costs only itself. */
  function NormalizeIsolated(resp: ListResponse): (ms: seq<Message>)
  {
    if resp.Items? then Isolated(resp.polled) else []
  }

  lemma {:induction false} ReadablesAppend(a: seq<Polled>, b: seq<Polled>)
    ensures Readables(a + b) == Readables(a) + Readables(b)
  {
    if a == [] {
      assert a + b == b;
    } else {
      assert (a + b)[1..] == a[1..] + b;
      ReadablesAppend(a[1..], b);
    }
  }

  /** The body of `checkEmailAccount` after the list request: a non-array or
      failed response gives no messages; otherwise each item's detail result is
      inspected in provider order and the readable ones are normalised, until
      a `null` entry ends the poll with no messages. */
  method CheckEmailAccount(resp: ListResponse) returns (messages: seq<Message>)
    ensures messages == Normalize(resp)
  {
    if !resp.Items? {
      return [];
    }
    var items := resp.polled;
    messages := [];
    var i := 0;
    ReadablesAreReadable(items);
    while i < |items|
      invariant 0 <= i <= |items|
      invariant forall k :: 0 <= k < i ==> !items[k].NullEntry?
      invariant forall k :: 0 <= k < |Readables(items[..i])| ==> Readable(Readables(items[..i])[k])
      invariant messages == MessagesOf(Readables(items[..i]))
    {
      var p := items[i];
      if p.NullEntry? {
        return [];
      }
      assert items[..i + 1] == items[..i] + [items[i]];
      ReadablesAppend(items[..i], [items[i]]);
      if p.detail.Fetched? && p.detail.data.Some? {
        var data := p.detail.data.value;
        var subject := SubjectOf(p.item.subject);
        var body := BodyOf(data);
        var otp := ExtractOtp(subject + " " + body);
        var m := Message(p.item.id, p.item.from, subject, body, p.item.date, p.item.timestamp, otp);
        messages := messages + [m];
      }
      i := i + 1;
    }
    assert items[..|items|] == items;
  }

  // ---------------------------------------------------------------------------
  // What normalisation keeps
  // ---------------------------------------------------------------------------

  /** `a` is `b` with some elements left out, order kept. */
  predicate IsSubsequence<T(==)>(a: seq<T>, b: seq<T>)
    decreases |b|
  {
    if a == [] then true
    else if b == [] then false
    else (a[0] == b[0] && IsSubsequence(a[1..], b[1..])) || IsSubsequence(a, b[1..])
  }

  /** Exactly the readable items survive, in provider order, and every
      unreadable one is dropped. */
  lemma {:induction false} ReadablesExactly(ps: seq<Polled>)
    ensures IsSubsequence(Readables(ps), ps)
    ensures |Readables(ps)| + Unreadable(ps) == |ps|
    ensures forall p :: p in Readables(ps) <==> p in ps && Readable(p)
  {
    if ps != [] {
      ReadablesExactly(ps[1..]);
      assert ps == [ps[0]] + ps[1..];
    }
  }

  /** A failed or non-array list response, or one with a `null` entry, yields
      no messages; otherwise one normalised message per readable item, in
      provider order, built from it, and none for an unreadable one. */
  lemma NormalizeSpec(resp: ListResponse)
    ensures !resp.Items? || HasNull(resp.polled) ==> Normalize(resp) == []
    ensures forall k :: 0 <= k < |Normalize(resp)| ==> Normalised(Normalize(resp)[k])
    ensures resp.Items? && !HasNull(resp.polled) ==>
      |Normalize(resp)| == |resp.polled| - Unreadable(resp.polled) <= |resp.polled|
    ensures resp.Items? && !HasNull(resp.polled) ==> forall k :: 0 <= k < |Normalize(resp)| ==>
      BuiltFrom(Normalize(resp)[k], Readables(resp.polled)[k])
    ensures resp.Items? && !HasNull(resp.polled) ==>
      forall p :: p in resp.polled && Readable(p) ==> ToMessage(p) in Normalize(resp)
  {
    if resp.Items? && !HasNull(resp.polled) {
      var ps := resp.polled;
      ReadablesExactly(ps);
      ReadablesAreReadable(ps);
      forall k | 0 <= k < |Normalize(resp)|
        ensures Normalised(Normalize(resp)[k]) && BuiltFrom(Normalize(resp)[k], Readables(ps)[k])
      {
        ToMessageNormalised(Readables(ps)[k]);
      }
      forall p | p in ps && Readable(p) ensures ToMessage(p) in Normalize(resp) {
        var k :| 0 <= k < |Readables(ps)| && Readables(ps)[k] == p;
        assert Normalize(resp)[k] == ToMessage(p);
      }
    }
  }

  /** One failed detail request among three costs exactly that message. */
  lemma MiddleFailureDropsOnlyIt(ps: seq<Polled>)
    requires |ps| == 3 && Readable(ps[0]) && ps[1].Polled? && !Readable(ps[1]) && Readable(ps[2])
    ensures Normalize(Items(ps)) == [ToMessage(ps[0]), ToMessage(ps[2])]
  {
    var last := [ps[2]];
    assert ps[1..][1..] == last && last[1..] == [];
    assert Readables(last) == [ps[2]];
    assert Readables(ps[1..]) == Readables(last);
    assert Readables(ps) == [ps[0], ps[2]];
  }

  // ---------------------------------------------------------------------------
  // A `null` entry
  // ---------------------------------------------------------------------------

  /** As written, a `null` entry after a readable item discards that item's
      message too; the intended normalisation keeps it. */
  lemma NullEntryDiscardsPoll(p: Polled)
    requires Readable(p)
    ensures Normalize(Items([p, NullEntry])) == []
    ensures NormalizeIsolated(Items([p, NullEntry])) == [ToMessage(p)]
  {
    assert HasNull([p, NullEntry]) by {
      assert [p, NullEntry][1].NullEntry?;
    }
    assert [p, NullEntry][1..] == [NullEntry];
    assert Readables([NullEntry]) == [];
  }

  /** In the intended normalisation a `null` entry costs only itself: the
      messages are those of the list without it. */
  lemma NullEntryCostsOnlyItself(before: seq<Polled>, after: seq<Polled>)
    ensures NormalizeIsolated(Items(before + [NullEntry] + after)) ==
            NormalizeIsolated(Items(before + after))
  {
    ReadablesAppend(before + [NullEntry], after);
    ReadablesAppend(before, [NullEntry]);
    ReadablesAppend(before, after);
    assert Readables([NullEntry]) == [];
    assert Readables(before + [NullEntry]) == Readables(before);
  }

  /** Without `null` entries the two normalisations agree. */
  lemma NormalizeWithoutNull(resp: ListResponse)
    requires resp.Items? ==> !HasNull(resp.polled)
    ensures Normalize(resp) == NormalizeIsolated(resp)
  {
  }
}
