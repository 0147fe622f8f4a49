/** What one live run heard at the transport, served back. */
module Replay {
  // A request's answers come in the order they were recorded, clock readings in theirs, nothing else.

  import opened Wrappers

  type Bytes = seq<bv8>
  type Headers = seq<(string, string)>

  // ----- bytes as text -------------------------------------------------------------------------

  /** The two encodings a capture keeps bytes in; `decode` refuses what is not UTF-8. */
  datatype Codec = Codec(decode: Bytes -> Option<string>, encode: string -> Bytes,
                         base64: Bytes -> string, unbase64: string -> Bytes)

  /** What UTF-8 and base64 promise: encoding what was decoded, or the other way round, gives it back. */
  ghost predicate Lawful(c: Codec) {
    && (forall b :: c.decode(b).Some? ==> c.encode(c.decode(b).value) == b)
    && (forall b :: c.unbase64(c.base64(b)) == b)
  }

  datatype Field = Text(text: string) | Base64(base64: string)

  function TextOf(c: Codec, data: Bytes): Field {
    var text := c.decode(data);
    if text.Some? then Text(text.value) else Base64(c.base64(data))
  }

  function BytesOf(c: Codec, field: Field): Bytes {
    match field
    case Text(text) => c.encode(text)
    case Base64(base64) => c.unbase64(base64)
  }

  /** Bytes survive the capture, so two fields are equal only for equal bytes. */
  lemma FieldsKeepBytes(c: Codec, a: Bytes, b: Bytes)
    requires Lawful(c)
    ensures BytesOf(c, TextOf(c, a)) == a
    ensures TextOf(c, a) == TextOf(c, b) ==> a == b
  {
  }

  // ----- naming an endpoint --------------------------------------------------------------------

  datatype Endpoint = Endpoint(name: string, base: string)

  /** The endpoint whose URL is the longest that starts `url`, the first of several as long. */
  function SplitAt(url: string, endpoints: seq<Endpoint>, n: nat): Option<Endpoint>
    requires n <= |endpoints|
  {
    if n == 0 then None
    else
      var before := SplitAt(url, endpoints, n - 1);
      var here := endpoints[n - 1];
      if here.base <= url && (before.None? || |here.base| > |before.value.base|) then Some(here) else before
  }

  /** A URL as an endpoint's name and the path after its base. */
  function Split(url: string, endpoints: seq<Endpoint>): Option<(string, string)> {
    var found := SplitAt(url, endpoints, |endpoints|);
    if found.None? then None
    else if |found.value.base| <= |url| then Some((found.value.name, url[|found.value.base|..]))
    else None
  }

  lemma {:induction false} SplitFinds(url: string, endpoints: seq<Endpoint>, n: nat, i: nat)
    requires i < n <= |endpoints| && endpoints[i].base <= url
    requires forall j :: 0 <= j < n && j != i && endpoints[j].base <= url ==>
               |endpoints[j].base| < |endpoints[i].base|
    ensures SplitAt(url, endpoints, n) == Some(endpoints[i])
  {
    if i < n - 1 {
      SplitFinds(url, endpoints, n - 1, i);
    } else {
      SplitIsAmong(url, endpoints, n - 1);
    }
  }

  lemma {:induction false} SplitIsAmong(url: string, endpoints: seq<Endpoint>, n: nat)
    requires n <= |endpoints|
    ensures SplitAt(url, endpoints, n).Some? ==>
              exists j :: 0 <= j < n && endpoints[j] == SplitAt(url, endpoints, n).value && endpoints[j].base <= url
  {
    if n > 0 {
      SplitIsAmong(url, endpoints, n - 1);
      if SplitAt(url, endpoints, n) == SplitAt(url, endpoints, n - 1) && SplitAt(url, endpoints, n).Some? {
        var j :| 0 <= j < n - 1 && endpoints[j] == SplitAt(url, endpoints, n).value && endpoints[j].base <= url;
      }
    }
  }

  /** A URL made from an endpoint and a path splits back into them, unless another endpoint's URL
      that is as long also starts it. */
  lemma SplitUndoesJoin(endpoints: seq<Endpoint>, i: nat, path: string)
    requires i < |endpoints|
    requires forall j :: 0 <= j < |endpoints| && j != i && endpoints[j].base <= endpoints[i].base + path ==>
               |endpoints[j].base| < |endpoints[i].base|
    ensures Split(endpoints[i].base + path, endpoints) == Some((endpoints[i].name, path))
  {
    SplitFinds(endpoints[i].base + path, endpoints, |endpoints|, i);
  }

  ghost predicate FirstLongest(url: string, endpoints: seq<Endpoint>, n: nat, i: int) {
    && 0 <= i < n <= |endpoints| && endpoints[i].base <= url
    && forall j :: 0 <= j < n && endpoints[j].base <= url ==>
         |endpoints[j].base| < |endpoints[i].base| || (|endpoints[j].base| == |endpoints[i].base| && i <= j)
  }

  ghost predicate NoneStarts(url: string, endpoints: seq<Endpoint>, n: nat) {
    n <= |endpoints| && forall j :: 0 <= j < n ==> !(endpoints[j].base <= url)
  }

  /** The longest so far stays it unless the next base starts the URL and is longer. */
  lemma NextLongest(url: string, endpoints: seq<Endpoint>, n: nat, i: int)
    requires FirstLongest(url, endpoints, n, i) && n < |endpoints|
    ensures var longer := endpoints[n].base <= url && |endpoints[n].base| > |endpoints[i].base|;
            FirstLongest(url, endpoints, n + 1, if longer then n else i)
  {
  }

  /** An endpoint is named by the longest base that starts the URL, the first listed of those as long; none when no
      base does. */
  lemma {:induction false} SplitTakesTheFirstLongest(url: string, endpoints: seq<Endpoint>, n: nat)
    requires n <= |endpoints|
    ensures SplitAt(url, endpoints, n).None? ==> NoneStarts(url, endpoints, n)
    ensures SplitAt(url, endpoints, n).Some? ==>
              exists i :: FirstLongest(url, endpoints, n, i) && SplitAt(url, endpoints, n).value == endpoints[i]
  {
    if n > 0 {
      var before := SplitAt(url, endpoints, n - 1);
      SplitTakesTheFirstLongest(url, endpoints, n - 1);
      if before.Some? {
        var i :| FirstLongest(url, endpoints, n - 1, i) && before.value == endpoints[i];
        NextLongest(url, endpoints, n - 1, i);
      } else if endpoints[n - 1].base <= url {
        assert FirstLongest(url, endpoints, n, n - 1);
      }
    }
  }

  // ----- one exchange --------------------------------------------------------------------------

  datatype Request = Request(endpoint: string, path: string, body: Option<Bytes>)

  /** How a request is told from others. */
  datatype Key = Key(endpoint: string, path: string, request: Option<Field>)

  function KeyOf(c: Codec, r: Request): Key {
    Key(r.endpoint, r.path, if r.body.None? then None else Some(TextOf(c, r.body.value)))
  }

  /** Two requests share a key exactly when they are the same request. */
  lemma KeysTellRequestsApart(c: Codec, a: Request, b: Request)
    requires Lawful(c)
    ensures KeyOf(c, a) == KeyOf(c, b) <==> a == b
  {
    if a.body.Some? && b.body.Some? {
      FieldsKeepBytes(c, a.body.value, b.body.value);
    }
  }

  /** What the transport itself did. */
  datatype Result = Answered(status: int, body: Bytes, headers: Option<Headers>)
                  | Raised(kind: string, message: string)

  /** Two clocks on one request: the recorder's, around the transport alone, and the waiting client's,
      around the recorder and all. */
  datatype Timing = Timing(elapsedUs: nat, waitedUs: nat)

  type Timed = t: Timing | t.elapsedUs <= t.waitedUs witness Timing(0, 0)

  /** How long the client waits for a live request, and what came of it and when, if anything did. */
  datatype Outcome = Outcome(timeoutUs: nat, returned: Option<(Timed, Result)>)

  /** As it is kept: an abandoned exchange has no end. */
  datatype Kept = KeptAnswer(status: int, body: Field, headers: Option<Headers>)
                | KeptError(kind: string, message: string)

  datatype Exchange = Exchange(key: Key, timeoutMs: nat, end: Option<(nat, Kept)>)

  /** What a client is left with. */
  datatype View = TimedOut
                | Answer(status: int, body: Bytes, headers: Headers)
                | Error(kind: string, message: string)

  function Lower(s: string): string {
    seq(|s|, i requires 0 <= i < |s| => if 'A' <= s[i] <= 'Z' then (s[i] as int + 32) as char else s[i])
  }

  const DROPPED_HEADER := "set-cookie"

  function KeptHeaders(h: Headers): Headers {
    if h == [] then []
    else if Lower(h[0].0) == DROPPED_HEADER then KeptHeaders(h[1..])
    else [h[0]] + KeptHeaders(h[1..])
  }

  /** A header's name is the dropped one in any letter case. */
  predicate IsSetCookie(name: string) {
    var plain, capital := "set-cookie", "SET-COOKIE";
    |name| == |plain| && forall i :: 0 <= i < |name| ==> name[i] == plain[i] || name[i] == capital[i]
  }

  lemma LowerIs(name: string)
    ensures Lower(name) == DROPPED_HEADER <==> IsSetCookie(name)
  {
    var plain, capital := "set-cookie", "SET-COOKIE";
    if IsSetCookie(name) {
      forall i | 0 <= i < |name| ensures Lower(name)[i] == plain[i] {
        assert name[i] == plain[i] || name[i] == capital[i];
      }
    }
    if Lower(name) == DROPPED_HEADER {
      forall i | 0 <= i < |name| ensures name[i] == plain[i] || name[i] == capital[i] {
        assert Lower(name)[i] == plain[i];
      }
    }
  }

  /** Of an answer's headers all are kept, in their order, but those that set a cookie. */
  lemma {:induction false} OnlyCookiesAreDropped(headers: Headers, more: (string, string))
    ensures KeptHeaders(headers + [more]) == KeptHeaders(headers) + if IsSetCookie(more.0) then [] else [more]
    ensures KeptHeaders([]) == []
  {
    LowerIs(more.0);
    if headers == [] {
      assert [more][1..] == [];
      assert headers + [more] == [more];
    } else {
      OnlyCookiesAreDropped(headers[1..], more);
      assert (headers + [more])[1..] == headers[1..] + [more];
    }
  }

  /** How the capture is written: its encodings, and how an error's text names an endpoint. */
  datatype Style = Style(codec: Codec, named: string -> string)

  function Keep(style: Style, r: Result): Kept {
    match r
    case Answered(status, body, headers) =>
      KeptAnswer(status, TextOf(style.codec, body), if headers.None? then None else Some(KeptHeaders(headers.value)))
    case Raised(kind, message) => KeptError(kind, style.named(message))
  }

  function Begun(style: Style, r: Request, timeoutUs: nat): Exchange {
    Exchange(KeyOf(style.codec, r), timeoutUs / 1000, None)
  }

  function Recorded(style: Style, r: Request, o: Outcome): Exchange {
    var begun := Begun(style, r, o.timeoutUs);
    if o.returned.None? then begun
    else begun.(end := Some((o.returned.value.0.elapsedUs / 1000, Keep(style, o.returned.value.1))))
  }

  /** By the record, the client had stopped waiting: nothing came, or it came too late. */
  predicate Hung(e: Exchange) { e.end.None? || e.end.value.0 > e.timeoutMs }

  /** What a replayed exchange leaves a client with. */
  function ViewOf(style: Style, e: Exchange): View {
    if e.end.None? || Hung(e) then TimedOut
    else match e.end.value.1
      case KeptAnswer(status, body, headers) =>
        Answer(status, BytesOf(style.codec, body), if headers.None? then [] else headers.value)
      case KeptError(kind, message) => Error(kind, message)
  }

  /** What the live exchange left it with, up to the headers dropped and the endpoints named. */
  function LiveView(style: Style, o: Outcome): View {
    if o.returned.None? || o.returned.value.0.waitedUs > o.timeoutUs then TimedOut
    else match o.returned.value.1
      case Answered(status, body, headers) =>
        Answer(status, body, if headers.None? then [] else KeptHeaders(headers.value))
      case Raised(kind, message) => Error(kind, style.named(message))
  }

  /** The client had stopped waiting, but by the recorder's clock, in whole milliseconds, it had not. */
  predicate LateUnseen(o: Outcome) {
    o.returned.Some? && o.returned.value.0.waitedUs > o.timeoutUs
    && o.returned.value.0.elapsedUs / 1000 <= o.timeoutUs / 1000
  }

  /** A replayed exchange is seen as the live one was, exactly when its lateness was recorded. */
  lemma ReplayedViewIsLive(style: Style, r: Request, o: Outcome)
    requires Lawful(style.codec)
    ensures ViewOf(style, Recorded(style, r, o)) == LiveView(style, o) <==> !LateUnseen(o)
  {
    if o.returned.Some? && o.returned.value.1.Answered? {
      FieldsKeepBytes(style.codec, o.returned.value.1.body, []);
    }
  }

  const A_BIT_LATE := Outcome(1_000_500, Some((Timing(1_000_900, 1_001_000), Raised("ConnectionReset", ""))))

  const LATE_OUTSIDE := Outcome(1_000_500, Some((Timing(1_000_400, 1_000_600), Raised("ConnectionReset", ""))))

  /** An error 400 microseconds after the deadline, or before it and handed on after it: the live client
      gave up, the replayed one sees it. */
  lemma LatenessCanGoUnseen(style: Style, r: Request)
    ensures LiveView(style, A_BIT_LATE) == LiveView(style, LATE_OUTSIDE) == TimedOut
    ensures ViewOf(style, Recorded(style, r, A_BIT_LATE)) == Error("ConnectionReset", style.named(""))
    ensures ViewOf(style, Recorded(style, r, LATE_OUTSIDE)) == Error("ConnectionReset", style.named(""))
  {
  }

  // ----- the recorder --------------------------------------------------------------------------

  /** The tape as it is written: a record is there once its request is out, and filled in if it ends. */
  class Recorder {
    const style: Style
    var exchanges: seq<Exchange>
    var readings: seq<int>

    constructor (style: Style)
      ensures this.style == style && exchanges == [] && readings == []
    {
      this.style := style;
      exchanges, readings := [], [];
    }

    method Begin(r: Request, timeoutUs: nat) returns (n: nat)
      modifies this`exchanges
      ensures n == |old(exchanges)| && exchanges == old(exchanges) + [Begun(style, r, timeoutUs)]
    {
      n := |exchanges|;
      exchanges := exchanges + [Begun(style, r, timeoutUs)];
    }

    /** An exchange may end after later ones began: only its own record changes. */
    method Finish(n: nat, r: Request, o: Outcome)
      requires n < |exchanges| && exchanges[n] == Begun(style, r, o.timeoutUs) && o.returned.Some?
      modifies this`exchanges
      ensures exchanges == old(exchanges)[n := Recorded(style, r, o)]
    {
      var (time, result) := o.returned.value;
      exchanges := exchanges[n := exchanges[n].(end := Some((time.elapsedUs / 1000, Keep(style, result))))];
    }

    /** One request through the transport, from its beginning to its end, if it ever ends. */
    method Send(r: Request, o: Outcome)
      modifies this`exchanges
      ensures exchanges == old(exchanges) + [Recorded(style, r, o)]
    {
      var n := Begin(r, o.timeoutUs);
      if o.returned.Some? {
        Finish(n, r, o);
      }
    }

    method Read(reading: int)
      modifies this`readings
      ensures readings == old(readings) + [reading]
    {
      readings := readings + [reading];
    }
  }

  // ----- what a replay serves ------------------------------------------------------------------

  /** The recorded exchanges of one request, in order. */
  function Matching(exchanges: seq<Exchange>, key: Key): seq<Exchange> {
    if exchanges == [] then []
    else
      var n := |exchanges| - 1;
      Matching(exchanges[..n], key) + if exchanges[n].key == key then [exchanges[n]] else []
  }

  function Count(asked: seq<Key>, key: Key): nat {
    if asked == [] then 0
    else Count(asked[..|asked| - 1], key) + if asked[|asked| - 1] == key then 1 else 0
  }

  /** The answer to the next ask of `key`: as many have been served as were asked for. */
  function Served(exchanges: seq<Exchange>, asked: seq<Key>, key: Key): Option<Exchange> {
    var j := Count(asked, key);
    if j < |Matching(exchanges, key)| then Some(Matching(exchanges, key)[j]) else None
  }

  function Keys(exchanges: seq<Exchange>): seq<Key> {
    seq(|exchanges|, i requires 0 <= i < |exchanges| => exchanges[i].key)
  }

  lemma {:induction false} MatchingCounts(exchanges: seq<Exchange>, key: Key)
    ensures |Matching(exchanges, key)| == Count(Keys(exchanges), key)
    ensures forall e :: e in Matching(exchanges, key) <==> e in exchanges && e.key == key
  {
    if exchanges != [] {
      var n := |exchanges| - 1;
      MatchingCounts(exchanges[..n], key);
      assert Keys(exchanges)[..n] == Keys(exchanges[..n]);
      assert exchanges == exchanges[..n] + [exchanges[n]];
    }
  }

  /** The m-th exchange is the next answer once the keys of those before it have been asked. */
  lemma {:induction false} ServedInOrder(exchanges: seq<Exchange>, m: nat)
    requires m < |exchanges|
    ensures Served(exchanges, Keys(exchanges[..m]), exchanges[m].key) == Some(exchanges[m])
  {
    var key := exchanges[m].key;
    MatchingCounts(exchanges[..m], key);
    assert exchanges[..m + 1][..m] == exchanges[..m];
    assert exchanges[..m + 1][m] == exchanges[m];
    MatchingGrows(exchanges, m + 1, key);
  }

  lemma {:induction false} MatchingGrows(exchanges: seq<Exchange>, m: nat, key: Key)
    requires m <= |exchanges|
    ensures Matching(exchanges[..m], key) <= Matching(exchanges, key)
    decreases |exchanges|
  {
    if m < |exchanges| {
      var n := |exchanges| - 1;
      MatchingGrows(exchanges[..n], m, key);
      assert exchanges[..n][..m] == exchanges[..m];
    } else {
      assert exchanges[..m] == exchanges;
    }
  }

  /** What one request is answered over a sequence of asks, of it and of others, misses among them. */
  function AnswersTo(exchanges: seq<Exchange>, asks: seq<Key>, key: Key): seq<Option<Exchange>> {
    if asks == [] then []
    else
      var n := |asks| - 1;
      AnswersTo(exchanges, asks[..n], key) + if asks[n] == key then [Served(exchanges, asks[..n], key)] else []
  }

  /** Whatever else is asked in between, a request's asks get its recorded answers in order, and then misses. */
  lemma {:induction false} AnswersAreItsOwn(exchanges: seq<Exchange>, asks: seq<Key>, key: Key)
    ensures |AnswersTo(exchanges, asks, key)| == Count(asks, key)
    ensures forall j :: 0 <= j < Count(asks, key) ==>
              AnswersTo(exchanges, asks, key)[j] ==
              if j < |Matching(exchanges, key)| then Some(Matching(exchanges, key)[j]) else None
  {
    if asks != [] {
      AnswersAreItsOwn(exchanges, asks[..|asks| - 1], key);
    }
  }

  /** Two interleavings that ask a request equally often are answered alike by it, ask by ask. */
  lemma InterleavingDoesNotMatter(exchanges: seq<Exchange>, a: seq<Key>, b: seq<Key>, key: Key)
    requires Count(a, key) == Count(b, key)
    ensures AnswersTo(exchanges, a, key) == AnswersTo(exchanges, b, key)
  {
    AnswersAreItsOwn(exchanges, a, key);
    AnswersAreItsOwn(exchanges, b, key);
  }

  lemma {:induction false} CountIsMultiplicity(asked: seq<Key>, key: Key)
    ensures Count(asked, key) == multiset(asked)[key]
  {
    if asked != [] {
      var n := |asked| - 1;
      CountIsMultiplicity(asked[..n], key);
      assert asked == asked[..n] + [asked[n]];
    }
  }

  /** Any interleaving of the recorded requests is served to the end, each the next of its own answers. */
  lemma EveryInterleavingIsServed(exchanges: seq<Exchange>, asked: seq<Key>, i: nat)
    requires multiset(asked) == multiset(Keys(exchanges)) && i < |asked|
    ensures |asked| == |exchanges|
    ensures var j := Count(asked[..i], asked[i]);
            && j < |Matching(exchanges, asked[i])|
            && Served(exchanges, asked[..i], asked[i]) == Some(Matching(exchanges, asked[i])[j])
  {
    assert |multiset(asked)| == |asked| && |multiset(Keys(exchanges))| == |exchanges|;
    AskedBefore(asked, i);
    CountIsMultiplicity(asked, asked[i]);
    CountIsMultiplicity(Keys(exchanges), asked[i]);
    MatchingCounts(exchanges, asked[i]);
  }

  lemma {:induction false} CountGrows(asked: seq<Key>, m: nat, key: Key)
    requires m <= |asked|
    ensures Count(asked[..m], key) <= Count(asked, key)
    decreases |asked|
  {
    if m < |asked| {
      var n := |asked| - 1;
      CountGrows(asked[..n], m, key);
      assert asked[..n][..m] == asked[..m];
    } else {
      assert asked[..m] == asked;
    }
  }

  lemma AskedBefore(asked: seq<Key>, i: nat)
    requires i < |asked|
    ensures Count(asked[..i], asked[i]) < Count(asked, asked[i])
  {
    CountGrows(asked, i + 1, asked[i]);
    assert asked[..i + 1][..i] == asked[..i];
  }

  /** What the capture does not hold is never answered, whatever was asked before. */
  lemma UnrecordedIsAlwaysMissed(exchanges: seq<Exchange>, asked: seq<Key>, key: Key)
    ensures key !in Keys(exchanges) ==> Served(exchanges, asked, key) == None
    ensures Served(exchanges, asked, key).Some? ==> Served(exchanges, asked, key).value in exchanges
                                                    && Served(exchanges, asked, key).value.key == key
  {
    MatchingCounts(exchanges, key);
    if Matching(exchanges, key) != [] {
      var e := Matching(exchanges, key)[0];
      assert e in exchanges;
      var i :| 0 <= i < |exchanges| && exchanges[i] == e;
      assert Keys(exchanges)[i] == key;
    }
  }

  // ----- the replayer --------------------------------------------------------------------------

  type Queues = map<Key, seq<Exchange>>

  function QueueOf(queues: Queues, key: Key): seq<Exchange> { if key in queues then queues[key] else [] }

  /** How many answers the queues still hold. */
  ghost function Pending(queues: Queues): nat {
    if queues == map[] then 0
    else
      var key :| key in queues;
      |queues[key]| + Pending(queues - {key})
  }

  lemma {:induction false} PendingAt(queues: Queues, key: Key)
    requires key in queues
    ensures Pending(queues) == |queues[key]| + Pending(queues - {key})
    decreases |queues|
  {
    var first :| first in queues && Pending(queues) == |queues[first]| + Pending(queues - {first});
    if first != key {
      PendingAt(queues - {first}, key);
      PendingAt(queues - {key}, first);
      assert queues - {first} - {key} == queues - {key} - {first};
    }
  }

  lemma PendingChanges(queues: Queues, key: Key, queue: seq<Exchange>)
    ensures Pending(queues[key := queue]) + |QueueOf(queues, key)| == Pending(queues) + |queue|
  {
    var changed := queues[key := queue];
    PendingAt(changed, key);
    if key in queues {
      PendingAt(queues, key);
      assert changed - {key} == queues - {key};
    } else {
      assert changed - {key} == queues;
    }
  }

  /** Every queue holds what is left of its request's exchanges, once those asked for are gone. */
  ghost predicate Holds(queues: Queues, given: seq<Exchange>, asked: seq<Key>) {
    && (forall key :: Count(asked, key) <= |Matching(given, key)|)
    && (forall key :: QueueOf(queues, key) == Matching(given, key)[Count(asked, key)..])
    && Pending(queues) + |asked| == |given|
  }

  lemma HoldsOneMore(queues: Queues, given: seq<Exchange>, e: Exchange)
    requires Holds(queues, given, [])
    ensures Holds(queues[e.key := QueueOf(queues, e.key) + [e]], given + [e], [])
  {
    assert (given + [e])[..|given + [e]| - 1] == given;
    PendingChanges(queues, e.key, QueueOf(queues, e.key) + [e]);
    var after := queues[e.key := QueueOf(queues, e.key) + [e]];
    forall key ensures QueueOf(after, key) == Matching(given + [e], key)[Count([], key)..] {
      assert QueueOf(queues, key) == Matching(given, key)[Count([], key)..];
    }
  }

  lemma HoldsOneLess(queues: Queues, given: seq<Exchange>, asked: seq<Key>, key: Key)
    requires Holds(queues, given, asked) && QueueOf(queues, key) != []
    ensures Served(given, asked, key) == Some(QueueOf(queues, key)[0])
    ensures Holds(queues[key := QueueOf(queues, key)[1..]], given, asked + [key])
  {
    assert (asked + [key])[..|asked + [key]| - 1] == asked;
    PendingChanges(queues, key, QueueOf(queues, key)[1..]);
    var after := queues[key := QueueOf(queues, key)[1..]];
    forall k ensures Count(asked + [key], k) <= |Matching(given, k)|
      ensures QueueOf(after, k) == Matching(given, k)[Count(asked + [key], k)..]
    {
      assert QueueOf(queues, k) == Matching(given, k)[Count(asked, k)..];
    }
  }

  method Queued(queues: Queues, ghost given: seq<Exchange>, e: Exchange, ghost more: seq<Exchange>)
    returns (longer: Queues)
    requires Holds(queues, given, []) && more == given + [e]
    ensures Holds(longer, more, [])
  {
    HoldsOneMore(queues, given, e);
    longer := queues[e.key := QueueOf(queues, e.key) + [e]];
  }

  /** The recorded exchanges in a queue for each request, in the order they were recorded. */
  method Filled(exchanges: seq<Exchange>) returns (queues: Queues)
    ensures Holds(queues, exchanges, [])
  {
    queues := map[];
    for i := 0 to |exchanges|
      invariant Holds(queues, exchanges[..i], [])
    {
      var e := exchanges[i];
      queues := Queued(queues, exchanges[..i], e, exchanges[..i + 1]);
    }
    assert exchanges[..|exchanges|] == exchanges;
  }

  /** A queue for each request and one tape: what is left to serve of a recording. */
  class Replayer {
    const style: Style
    ghost const given: seq<Exchange>
    ghost const ticks: seq<int>
    var queues: Queues
    var tape: seq<int>
    ghost var asked: seq<Key>

    ghost predicate Valid()
      reads this
    {
      && Holds(queues, given, asked)
      && |tape| <= |ticks| && tape == ticks[|ticks| - |tape|..]
    }

    constructor (style: Style, exchanges: seq<Exchange>, readings: seq<int>)
      ensures Valid() && this.style == style && given == exchanges && ticks == readings
      ensures asked == [] && tape == readings
    {
      var filled := Filled(exchanges);
      this.style, given, ticks := style, exchanges, readings;
      queues, tape, asked := filled, readings, [];
    }

    /** The next recorded answer to this request, or a miss, after which nothing has changed. */
    method Send(r: Request) returns (view: Option<View>)
      requires Valid()
      modifies this`queues, this`asked
      ensures Valid()
      ensures var key := KeyOf(style.codec, r);
              var next := Served(given, old(asked), key);
              && (next.None? ==> view == None && asked == old(asked) && queues == old(queues))
              && (next.Some? ==> view == Some(ViewOf(style, next.value)) && asked == old(asked) + [key])
    {
      var key := KeyOf(style.codec, r);
      assert QueueOf(queues, key) == Matching(given, key)[Count(asked, key)..];
      if key !in queues || queues[key] == [] {
        return None;
      }
      HoldsOneLess(queues, given, asked, key);
      var record := queues[key][0];
      queues, asked := queues[key := queues[key][1..]], asked + [key];
      return Some(ViewOf(style, record));
    }

    /** The next reading of the tape, never today's clock. */
    method ReadClock() returns (reading: Option<int>)
      requires Valid()
      modifies this`tape
      ensures Valid()
      ensures old(tape) == [] ==> reading == None && tape == []
      ensures old(tape) != [] ==> reading == Some(old(tape)[0]) && tape == old(tape)[1..]
    {
      if tape == [] {
        return None;
      }
      reading, tape := Some(tape[0]), tape[1..];
    }

    /** How many exchanges and clock readings were never asked for. */
    method Unused() returns (exchanges: nat, readings: nat)
      requires Valid()
      ensures exchanges == |given| - |asked| && readings == |tape|
    {
      exchanges, readings := 0, |tape|;
      var rest := queues;
      while rest != map[]
        invariant exchanges + Pending(rest) == Pending(queues)
        decreases |rest|
      {
        var key :| key in rest;
        PendingAt(rest, key);
        exchanges := exchanges + |rest[key]|;
        rest := rest - {key};
      }
    }
  }

  // ----- a whole run ---------------------------------------------------------------------------

  /** What a client does next, and what it can learn. */
  datatype Ask = Sends(request: Request, timeoutUs: nat) | ReadsClock | Stops

  datatype Heard = Saw(view: View) | Told(reading: int)

  /** A deterministic client: a function of what it has heard so far. */
  type Client = seq<Heard> -> Ask

  /** One moment of a live run: what was asked, and what the world made of it. */
  datatype Moment = Exchanged(request: Request, outcome: Outcome) | Ticked(reading: int)

  function HeardAt(style: Style, m: Moment): Heard {
    match m
    case Exchanged(_, outcome) => Saw(LiveView(style, outcome))
    case Ticked(reading) => Told(reading)
  }

  function HeardIn(style: Style, run: seq<Moment>): seq<Heard> {
    if run == [] then [] else HeardIn(style, run[..|run| - 1]) + [HeardAt(style, run[|run| - 1])]
  }

  function AskedAt(m: Moment): Ask {
    match m
    case Exchanged(request, outcome) => Sends(request, outcome.timeoutUs)
    case Ticked(_) => ReadsClock
  }

  /** The client's own live run, to its end: each moment is what it asked, after what it had heard. */
  ghost predicate LiveRun(style: Style, client: Client, run: seq<Moment>) {
    && (forall i :: 0 <= i < |run| ==> client(HeardIn(style, run[..i])) == AskedAt(run[i]))
    && client(HeardIn(style, run)) == Stops
  }

  /** What the recorder holds after a run. */
  function Exchanges(style: Style, run: seq<Moment>): seq<Exchange> {
    if run == [] then []
    else
      var n := |run| - 1;
      Exchanges(style, run[..n])
        + if run[n].Exchanged? then [Recorded(style, run[n].request, run[n].outcome)] else []
  }

  function Readings(run: seq<Moment>): seq<int> {
    if run == [] then []
    else Readings(run[..|run| - 1]) + if run[|run| - 1].Ticked? then [run[|run| - 1].reading] else []
  }

  /** A replay partway: what the client has heard, what it asked for, and how much of the tape it read. */
  datatype Partway = Partway(heard: seq<Heard>, asked: seq<Key>, read: nat)

  /** One step of the client against a replayer; None is a miss, which stops the build. */
  function Step(style: Style, client: Client,
                exchanges: seq<Exchange>, readings: seq<int>, at: Partway): Option<Partway> {
    match client(at.heard)
    case Stops => Some(at)
    case ReadsClock =>
      if at.read < |readings| then Some(at.(heard := at.heard + [Told(readings[at.read])], read := at.read + 1))
      else None
    case Sends(request, _) =>
      var key := KeyOf(style.codec, request);
      var next := Served(exchanges, at.asked, key);
      if next.None? then None
      else Some(at.(heard := at.heard + [Saw(ViewOf(style, next.value))], asked := at.asked + [key]))
  }

  function ReplayedFor(style: Style, client: Client,
                       exchanges: seq<Exchange>, readings: seq<int>, n: nat): Option<Partway> {
    if n == 0 then Some(Partway([], [], 0))
    else
      var before := ReplayedFor(style, client, exchanges, readings, n - 1);
      if before.None? then None else Step(style, client, exchanges, readings, before.value)
  }

  lemma {:induction false} RecordingGrows(style: Style, run: seq<Moment>, n: nat)
    requires n <= |run|
    ensures Exchanges(style, run[..n]) <= Exchanges(style, run) && Readings(run[..n]) <= Readings(run)
    decreases |run|
  {
    if n < |run| {
      var m := |run| - 1;
      RecordingGrows(style, run[..m], n);
      assert run[..m][..n] == run[..n];
    } else {
      assert run[..n] == run;
    }
  }

  /** What the replay has made of the first n moments of the live run. */
  function Reached(style: Style, run: seq<Moment>): Partway {
    Partway(HeardIn(style, run), Keys(Exchanges(style, run)), |Readings(run)|)
  }

  /** The recording after one more moment, as a start of the whole recording. */
  lemma RecordingAt(style: Style, run: seq<Moment>, n: nat)
    requires n < |run|
    ensures Exchanges(style, run[..n + 1]) == Exchanges(style, run[..n])
              + (if run[n].Exchanged? then [Recorded(style, run[n].request, run[n].outcome)] else [])
    ensures Readings(run[..n + 1]) == Readings(run[..n]) + (if run[n].Ticked? then [run[n].reading] else [])
    ensures HeardIn(style, run[..n + 1]) == HeardIn(style, run[..n]) + [HeardAt(style, run[n])]
    ensures Exchanges(style, run[..n + 1]) <= Exchanges(style, run) && Readings(run[..n + 1]) <= Readings(run)
  {
    assert run[..n + 1][..n] == run[..n] && run[..n + 1][n] == run[n];
    RecordingGrows(style, run, n + 1);
  }

  lemma NextServed(exchanges: seq<Exchange>, before: seq<Exchange>, e: Exchange)
    requires before + [e] <= exchanges
    ensures Served(exchanges, Keys(before), e.key) == Some(e) && Keys(before + [e]) == Keys(before) + [e.key]
  {
    assert exchanges[|before|] == (before + [e])[|before|];
    assert exchanges[..|before|] == before;
    ServedInOrder(exchanges, |before|);
  }

  lemma TicksOnce(style: Style, client: Client, exchanges: seq<Exchange>, readings: seq<int>, at: Partway)
    requires client(at.heard) == ReadsClock && at.read < |readings|
    ensures Step(style, client, exchanges, readings, at)
         == Some(Partway(at.heard + [Told(readings[at.read])], at.asked, at.read + 1))
  {
  }

  lemma SendsOnce(style: Style, client: Client, exchanges: seq<Exchange>, readings: seq<int>, at: Partway,
                  request: Request, timeoutUs: nat, e: Exchange)
    requires client(at.heard) == Sends(request, timeoutUs) && e.key == KeyOf(style.codec, request)
    requires Served(exchanges, at.asked, e.key) == Some(e)
    ensures Step(style, client, exchanges, readings, at)
         == Some(Partway(at.heard + [Saw(ViewOf(style, e))], at.asked + [e.key], at.read))
  {
  }

  lemma ReplaysTick(style: Style, client: Client, run: seq<Moment>, n: nat)
    requires n < |run| && run[n].Ticked? && client(HeardIn(style, run[..n])) == ReadsClock
    ensures Step(style, client, Exchanges(style, run), Readings(run), Reached(style, run[..n]))
         == Some(Reached(style, run[..n + 1]))
  {
    RecordingAt(style, run, n);
    var at, readings := Reached(style, run[..n]), Readings(run);
    assert Exchanges(style, run[..n + 1]) == Exchanges(style, run[..n]);
    assert readings[at.read] == Readings(run[..n + 1])[at.read] == run[n].reading;
    TicksOnce(style, client, Exchanges(style, run), readings, at);
  }

  lemma ReplaysExchange(style: Style, client: Client, run: seq<Moment>, n: nat, e: Exchange)
    requires n < |run| && run[n].Exchanged? && e == Recorded(style, run[n].request, run[n].outcome)
    requires client(HeardIn(style, run[..n])) == Sends(run[n].request, run[n].outcome.timeoutUs)
    ensures var at := Reached(style, run[..n + 1]);
            Step(style, client, Exchanges(style, run), Readings(run), Reached(style, run[..n]))
            == Some(at.(heard := HeardIn(style, run[..n]) + [Saw(ViewOf(style, e))]))
  {
    RecordingAt(style, run, n);
    var before := Exchanges(style, run[..n]);
    assert Readings(run[..n + 1]) == Readings(run[..n]);
    NextServed(Exchanges(style, run), before, e);
    SendsOnce(style, client, Exchanges(style, run), Readings(run), Reached(style, run[..n]),
              run[n].request, run[n].outcome.timeoutUs, e);
  }

  predicate Unseen(m: Moment) { m.Exchanged? && LateUnseen(m.outcome) }

  /** One step of the replay is the live moment exactly when the recorder saw its lateness; otherwise it
      differs in what was heard. */
  lemma ReplaysOneMoment(style: Style, client: Client, run: seq<Moment>, n: nat)
    requires Lawful(style.codec) && n < |run| && client(HeardIn(style, run[..n])) == AskedAt(run[n])
    ensures var next := Step(style, client, Exchanges(style, run), Readings(run), Reached(style, run[..n]));
            && (!Unseen(run[n]) ==> next == Some(Reached(style, run[..n + 1])))
            && (Unseen(run[n]) ==>
                  next.Some? && |next.value.heard| == n + 1 && next.value.heard[n] != HeardAt(style, run[n]))
  {
    HeardOnceEach(style, run[..n]);
    match run[n]
    case Ticked(_) =>
      ReplaysTick(style, client, run, n);
    case Exchanged(request, outcome) =>
      ReplayedViewIsLive(style, request, outcome);
      ReplaysExchange(style, client, run, n, Recorded(style, request, outcome));
      RecordingAt(style, run, n);
  }

  lemma {:induction false} HeardOnceEach(style: Style, run: seq<Moment>)
    ensures |HeardIn(style, run)| == |run|
  {
    if run != [] {
      HeardOnceEach(style, run[..|run| - 1]);
    }
  }

  /** Up to the first lateness that went unseen, a replay is the live run over again: at every step the
      client asks the same, hears the same, and nothing is missed. */
  lemma {:induction false} ReplaysUpTo(style: Style, client: Client, run: seq<Moment>, n: nat)
    requires Lawful(style.codec) && LiveRun(style, client, run) && n <= |run|
    requires forall i :: 0 <= i < n ==> !Unseen(run[i])
    ensures ReplayedFor(style, client, Exchanges(style, run), Readings(run), n) == Some(Reached(style, run[..n]))
  {
    if n > 0 {
      ReplaysUpTo(style, client, run, n - 1);
      ReplaysOneMoment(style, client, run, n - 1);
      StepsOn(style, client, Exchanges(style, run), Readings(run), n, Reached(style, run[..n - 1]));
    } else {
      assert run[..0] == [];
      ReachedNothing(style);
    }
  }

  /** What has been heard is never unheard. */
  lemma {:induction false} HeardStays(style: Style, client: Client, exchanges: seq<Exchange>, readings: seq<int>,
                                      n: nat, k: nat)
    requires n <= k && ReplayedFor(style, client, exchanges, readings, k).Some?
    ensures var early := ReplayedFor(style, client, exchanges, readings, n);
            early.Some? && early.value.heard <= ReplayedFor(style, client, exchanges, readings, k).value.heard
    decreases k - n
  {
    if n < k {
      HeardStays(style, client, exchanges, readings, n, k - 1);
    }
  }

  lemma {:induction false} HeardWhere(style: Style, run: seq<Moment>, i: nat)
    requires i < |run|
    ensures |HeardIn(style, run)| == |run| && HeardIn(style, run)[i] == HeardAt(style, run[i])
    decreases |run|
  {
    HeardOnceEach(style, run);
    HeardOnceEach(style, run[..|run| - 1]);
    if i < |run| - 1 {
      HeardWhere(style, run[..|run| - 1], i);
    }
  }

  /** A lateness that went unseen is heard otherwise, and that shows to the end. */
  lemma UnseenShows(style: Style, client: Client, run: seq<Moment>, i: nat)
    requires Lawful(style.codec) && LiveRun(style, client, run) && i < |run|
    requires Unseen(run[i]) && forall k :: 0 <= k < i ==> !Unseen(run[k])
    ensures var end := ReplayedFor(style, client, Exchanges(style, run), Readings(run), |run|);
            end.Some? ==> end.value.heard != HeardIn(style, run)
  {
    var exchanges, readings := Exchanges(style, run), Readings(run);
    ReplaysUpTo(style, client, run, i);
    ReplaysOneMoment(style, client, run, i);
    StepsOn(style, client, exchanges, readings, i + 1, Reached(style, run[..i]));
    if ReplayedFor(style, client, exchanges, readings, |run|).Some? {
      HeardStays(style, client, exchanges, readings, i + 1, |run|);
      HeardWhere(style, run, i);
    }
  }

  function FirstUnseen(run: seq<Moment>, i: nat): (k: nat)
    requires i <= |run|
    ensures i <= k <= |run| && (k < |run| ==> Unseen(run[k])) && forall m :: i <= m < k ==> !Unseen(run[m])
    decreases |run| - i
  {
    if i == |run| || Unseen(run[i]) then i else FirstUnseen(run, i + 1)
  }

  /** A replay ends where the live run ended, having asked and heard the same all the way, if and only if
      no lateness went unseen. */
  lemma ReplayIsTheLiveRun(style: Style, client: Client, run: seq<Moment>)
    requires Lawful(style.codec) && LiveRun(style, client, run)
    ensures ReplayedFor(style, client, Exchanges(style, run), Readings(run), |run|) == Some(Reached(style, run))
       <==> forall i :: 0 <= i < |run| ==> !Unseen(run[i])
  {
    var first := FirstUnseen(run, 0);
    assert run[..|run|] == run;
    if first == |run| {
      ReplaysUpTo(style, client, run, |run|);
    } else {
      UnseenShows(style, client, run, first);
    }
  }

  /** There the client stops, having asked for every exchange and read every reading; and it gets that far
      if and only if no lateness went unseen. */
  lemma ReplayLeavesNothing(style: Style, client: Client, run: seq<Moment>)
    requires Lawful(style.codec) && LiveRun(style, client, run)
    ensures var end := ReplayedFor(style, client, Exchanges(style, run), Readings(run), |run|);
            var same := end.Some? && end.value.heard == HeardIn(style, run);
            && (same <==> forall i :: 0 <= i < |run| ==> !Unseen(run[i]))
            && (same ==> client(end.value.heard) == Stops
                         && |Exchanges(style, run)| - |end.value.asked| == 0 && |Readings(run)| - end.value.read == 0)
  {
    var first := FirstUnseen(run, 0);
    assert run[..|run|] == run;
    if first == |run| {
      ReplaysUpTo(style, client, run, |run|);
    } else {
      UnseenShows(style, client, run, first);
    }
  }

  /** And step by step: the replay agrees with the live run at every step exactly when none went unseen. */
  lemma EveryStepIsTheLiveOne(style: Style, client: Client, run: seq<Moment>)
    requires Lawful(style.codec) && LiveRun(style, client, run)
    ensures (forall n: nat :: n <= |run| ==>
               ReplayedFor(style, client, Exchanges(style, run), Readings(run), n) == Some(Reached(style, run[..n])))
       <==> (forall i :: 0 <= i < |run| ==> !Unseen(run[i]))
  {
    if forall i :: 0 <= i < |run| ==> !Unseen(run[i]) {
      forall n: nat | n <= |run| { ReplaysUpTo(style, client, run, n); }
    } else {
      ReplayIsTheLiveRun(style, client, run);
      assert run[..|run|] == run;
    }
  }

  lemma ReachedNothing(style: Style)
    ensures Reached(style, []) == Partway([], [], 0)
  {
    assert Keys([]) == [];
  }

  lemma StepsOn(style: Style, client: Client, exchanges: seq<Exchange>, readings: seq<int>, n: nat, at: Partway)
    requires n > 0 && ReplayedFor(style, client, exchanges, readings, n - 1) == Some(at)
    ensures ReplayedFor(style, client, exchanges, readings, n) == Step(style, client, exchanges, readings, at)
  {
  }
}
