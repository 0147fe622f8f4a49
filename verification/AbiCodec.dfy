/** The hand-written Multicall3 codec. */
module AbiCodec {
  // Proved against the Solidity Contract ABI Specification ("Formal Specification of the Encoding").
  // Bytes stand for the hex text the codec writes: two digits a byte.

  import opened Basics

  newtype byte = x: int | 0 <= x < 256

  type Bytes = seq<byte>

  // ----- words ---------------------------------------------------------------------------------

  function Pow256(n: nat): (p: nat)
    ensures p >= 1
  {
    if n == 0 then 1 else 256 * Pow256(n - 1)
  }

  const WORD_BYTES: nat := 32

  /** 2 to the 256th: what a word can hold. */
  const WORD_LIMIT: nat := Pow256(WORD_BYTES)

  function BigEndian(v: nat, n: nat): (b: Bytes)
    ensures |b| == n
  {
    if n == 0 then [] else BigEndian(v / 256, n - 1) + [(v % 256) as byte]
  }

  /** A value as one 32-byte big-endian word. */
  function Word(v: nat): (w: Bytes)
    ensures |w| == 32
  {
    BigEndian(v, WORD_BYTES)
  }

  /** The bytes of a number, the most significant first. */
  lemma {:induction false} BigEndianIs(v: nat, n: nat, k: nat)
    requires k < n
    ensures BigEndian(v, n)[n - 1 - k] as int == v / Pow256(k) % 256
  {
    if k > 0 {
      BigEndianIs(v / 256, n - 1, k - 1);
      assert v / Pow256(k) == v / 256 / Pow256(k - 1) by { DivideTwice(v, Pow256(k - 1)); }
    } else {
      assert Pow256(0) == 1;
    }
  }

  lemma DivideTwice(v: nat, p: nat)
    requires p > 0
    ensures v / (256 * p) == v / 256 / p
  {
    var q := v / 256 / p;
    assert v / 256 == p * q + v / 256 % p;
    assert v == 256 * (v / 256) + v % 256;
    var r := 256 * (v / 256 % p) + v % 256;
    assert v == 256 * p * q + r && 0 <= r < 256 * p;
    QuotientOf(v, 256 * p, q, r);
  }

  lemma QuotientOf(a: int, d: int, q: int, r: int)
    requires d > 0 && a == d * q + r && 0 <= r < d
    ensures a / d == q
  {
    var e := a / d - q;
    assert d * (a / d) == d * q + d * e;
    assert -d < d * e < d;
    assert e >= 1 ==> d * e >= d;
    assert e <= -1 ==> d * e <= -d;
  }

  /** How many of the `length` bytes at `from` the data has: a slice may run past the end. */
  function Available(data: Bytes, from: nat, length: nat): (n: nat)
    ensures n <= length && (n > 0 ==> from + n <= |data|)
  {
    if from <= |data| then Min(length, |data| - from) else 0
  }

  /** The `n` bytes at `from` as a big-endian number. */
  function Number(data: Bytes, from: nat, n: nat): nat
    requires n > 0 ==> from + n <= |data|
  {
    if n == 0 then 0 else 256 * Number(data, from, n - 1) + data[from + n - 1] as int
  }

  /** The word at `offset`; bytes past the end are simply absent. */
  function Uint(data: Bytes, offset: nat): nat {
    Number(data, offset, Available(data, offset, 32))
  }

  function Zeros(n: nat): (z: Bytes)
    ensures |z| == n
  {
    seq(n, _ => 0)
  }

  // ----- the specification's encoding ----------------------------------------------------------

  /** The first `n` parts, one after another. */
  function Joined(parts: seq<Bytes>, n: nat): Bytes
    requires n <= |parts|
  {
    if n == 0 then [] else Joined(parts, n - 1) + parts[n - 1]
  }

  /** Where tail `i` starts, counted from the first head. */
  function HeadOffset(tails: seq<Bytes>, i: nat): nat
    requires i <= |tails|
  {
    32 * |tails| + |Joined(tails, i)|
  }

  /** head(X_i) is the offset of tail(X_i), for k dynamic parts. */
  function Heads(tails: seq<Bytes>): seq<Bytes> {
    seq(|tails|, i requires 0 <= i < |tails| => Word(HeadOffset(tails, i)))
  }

  /** enc of k dynamic parts: every head, then every tail. */
  function HeadTail(tails: seq<Bytes>): Bytes {
    Joined(Heads(tails), |tails|) + Joined(tails, |tails|)
  }

  /** enc of a dynamic array: its length, then its parts as a tuple. */
  function EncArray(tails: seq<Bytes>): Bytes {
    Word(|tails|) + HeadTail(tails)
  }

  /** enc of one dynamic argument: its offset, then the argument. */
  function EncArgument(tails: seq<Bytes>): Bytes {
    Word(32) + EncArray(tails)
  }

  /** enc of a byte string: its length, then its bytes padded with zeros to whole words. */
  function EncBytes(data: Bytes): Bytes {
    Word(|data|) + data + Zeros((32 - |data| % 32) % 32)
  }

  /** A byte string follows its length and is padded with zeros, fewer than a word of them, to whole words. */
  lemma PaddedToWords(data: Bytes)
    ensures var pad := |EncBytes(data)| - 32 - |data|;
            && 0 <= pad < 32 && |EncBytes(data)| % 32 == 0 && EncBytes(data)[..32] == Word(|data|)
            && EncBytes(data)[32..32 + |data|] == data
            && forall i :: 32 + |data| <= i < |EncBytes(data)| ==> EncBytes(data)[i] == 0
  {
  }

  /** One call of `aggregate3`: (address, bool, bytes), the bool always true. */
  datatype Call = Call(target: nat, data: Bytes)

  function EncCall(c: Call): Bytes {
    Word(c.target) + Word(1) + Word(0x60) + EncBytes(c.data)
  }

  /** One result of `aggregate3`: (bool, bytes). */
  datatype Outcome = Outcome(success: bool, data: Bytes)

  function EncOutcome(r: Outcome): Bytes {
    Word(if r.success then 1 else 0) + Word(0x40) + EncBytes(r.data)
  }

  function Tails<T>(items: seq<T>, enc: T -> Bytes): seq<Bytes> {
    seq(|items|, i requires 0 <= i < |items| => enc(items[i]))
  }

  // ----- reading an encoding by its offsets ----------------------------------------------------

  /** `part` stands at `at` in `data`. */
  ghost predicate Stands(data: Bytes, at: nat, part: Bytes) {
    at + |part| <= |data| && forall i :: 0 <= i < |part| ==> data[at + i] == part[i]
  }

  /** Of two parts in a row, each stands where it should. */
  lemma StandsSplit(data: Bytes, at: nat, a: Bytes, b: Bytes)
    requires Stands(data, at, a + b)
    ensures Stands(data, at, a) && Stands(data, at + |a|, b)
  {
    forall i | 0 <= i < |a| ensures data[at + i] == a[i] {
      assert (a + b)[i] == a[i];
    }
    forall i | 0 <= i < |b| ensures data[at + |a| + i] == b[i] {
      assert data[at + (|a| + i)] == (a + b)[|a| + i];
    }
  }

  lemma {:induction false} NumberStands(data: Bytes, at: nat, v: nat, n: nat)
    requires Stands(data, at, BigEndian(v, n)) && v < Pow256(n)
    ensures Number(data, at, n) == v
  {
    if n > 0 {
      StandsSplit(data, at, BigEndian(v / 256, n - 1), [(v % 256) as byte]);
      assert data[at + n - 1] == BigEndian(v, n)[n - 1];
      NumberStands(data, at, v / 256, n - 1);
    }
  }

  lemma WordStands(data: Bytes, at: nat, v: nat)
    requires Stands(data, at, Word(v)) && v < WORD_LIMIT
    ensures Uint(data, at) == v
  {
    NumberStands(data, at, v, WORD_BYTES);
  }

  /** Each part stands where the parts before it end. */
  lemma {:induction false} JoinedPart(data: Bytes, at: nat, parts: seq<Bytes>, n: nat, i: nat)
    requires i < n <= |parts| && Stands(data, at, Joined(parts, n))
    ensures Stands(data, at + |Joined(parts, i)|, parts[i])
    ensures |Joined(parts, i)| + |parts[i]| <= |Joined(parts, n)|
  {
    StandsSplit(data, at, Joined(parts, n - 1), parts[n - 1]);
    if i < n - 1 {
      JoinedPart(data, at, parts, n - 1, i);
    }
  }

  lemma {:induction false} WordsJoined(parts: seq<Bytes>, n: nat)
    requires (forall k :: 0 <= k < |parts| ==> |parts[k]| == 32) && n <= |parts|
    ensures |Joined(parts, n)| == 32 * n
  {
    if n > 0 {
      WordsJoined(parts, n - 1);
    }
  }

  /** Where item `i` of the array at `base` starts, by the array's own head for it. */
  function ItemStart(data: Bytes, base: nat, i: nat): nat {
    base + 32 + Uint(data, base + 32 + 32 * i)
  }

  /** Among 32-byte heads followed by `rest`, head `i` reads as the value it encodes. */
  lemma ReadHead(data: Bytes, at: nat, heads: seq<Bytes>, rest: Bytes, i: nat, v: nat)
    requires forall k :: 0 <= k < |heads| ==> |heads[k]| == 32
    requires Stands(data, at, Joined(heads, |heads|) + rest)
    requires i < |heads| && heads[i] == Word(v) && v < WORD_LIMIT
    ensures Uint(data, at + 32 * i) == v && Stands(data, at + 32 * |heads|, rest)
  {
    WordsJoined(heads, |heads|);
    WordsJoined(heads, i);
    StandsSplit(data, at, Joined(heads, |heads|), rest);
    JoinedPart(data, at, heads, |heads|, i);
    WordStands(data, at + 32 * i, v);
  }

  /** Every head reads as the offset of its tail, and every tail stands there. */
  lemma ReadTail(data: Bytes, at: nat, tails: seq<Bytes>, i: nat)
    requires Stands(data, at, HeadTail(tails)) && |data| < WORD_LIMIT && i < |tails|
    ensures Uint(data, at + 32 * i) == HeadOffset(tails, i)
    ensures Stands(data, at + HeadOffset(tails, i), tails[i])
  {
    WordsJoined(Heads(tails), |tails|);
    StandsSplit(data, at, Joined(Heads(tails), |tails|), Joined(tails, |tails|));
    JoinedPart(data, at + 32 * |tails|, tails, |tails|, i);
    ReadHead(data, at, Heads(tails), Joined(tails, |tails|), i, HeadOffset(tails, i));
  }

  lemma ReadItem(data: Bytes, base: nat, tails: seq<Bytes>, i: nat)
    requires Stands(data, base, EncArray(tails)) && |data| < WORD_LIMIT && i < |tails|
    ensures Stands(data, ItemStart(data, base, i), tails[i])
  {
    StandsSplit(data, base, Word(|tails|), HeadTail(tails));
    ReadTail(data, base + 32, tails, i);
    assert ItemStart(data, base, i) == base + 32 + HeadOffset(tails, i);
  }

  /** Reading an encoded array by its offsets finds its count and every tail. */
  lemma ReadArray(data: Bytes, base: nat, tails: seq<Bytes>)
    requires Stands(data, base, EncArray(tails)) && |data| < WORD_LIMIT
    ensures Uint(data, base) == |tails|
    ensures forall i :: 0 <= i < |tails| ==> Stands(data, ItemStart(data, base, i), tails[i])
  {
    WordsJoined(Heads(tails), |tails|);
    StandsSplit(data, base, Word(|tails|), HeadTail(tails));
    WordStands(data, base, |tails|);
    forall i | 0 <= i < |tails| ensures Stands(data, ItemStart(data, base, i), tails[i]) {
      ReadItem(data, base, tails, i);
    }
  }

  /** The byte string whose encoding starts at `at`: its length word, then that many bytes. */
  function BytesAt(data: Bytes, at: nat): Bytes {
    var n := Available(data, at + 32, Uint(data, at));
    seq(n, i requires 0 <= i < n => data[at + 32 + i])
  }

  lemma ReadBytes(data: Bytes, at: nat, content: Bytes)
    requires Stands(data, at, EncBytes(content)) && |data| < WORD_LIMIT
    ensures BytesAt(data, at) == content
  {
    var zeros := Zeros((32 - |content| % 32) % 32);
    StandsSplit(data, at, Word(|content|) + content, zeros);
    StandsSplit(data, at, Word(|content|), content);
    WordStands(data, at, |content|);
  }

  // ----- the encoder ---------------------------------------------------------------------------

  const SEL_AGGREGATE3: Bytes := [0x82, 0xad, 0x56, 0xcb]

  /** Every call of a batch, each allowed to fail, in one `aggregate3` call. */
  method EncodeAggregate3(calls: seq<Call>) returns (out: Bytes)
    ensures out == SEL_AGGREGATE3 + EncArgument(Tails(calls, EncCall))
  {
    var tuples: seq<Bytes> := [];
    for i := 0 to |calls|
      invariant |tuples| == i
      invariant forall k :: 0 <= k < i ==> tuples[k] == EncCall(calls[k])
    {
      var data := calls[i].data;
      var padded := data + Zeros((32 - |data| % 32) % 32);
      assert Word(|data|) + padded == EncBytes(data);
      tuples := tuples + [Word(calls[i].target) + Word(1) + Word(0x60) + (Word(|data|) + padded)];
    }
    assert tuples == Tails(calls, EncCall);
    var offsets := Offsets(tuples);
    out := SEL_AGGREGATE3 + (Word(0x20) + (Word(|calls|) + (Joined(offsets, |calls|) + Joined(tuples, |calls|))));
  }

  /** Where each tuple starts, counted from the first offset: a running position. */
  method Offsets(tuples: seq<Bytes>) returns (offsets: seq<Bytes>)
    ensures offsets == Heads(tuples)
  {
    offsets := [];
    var position := 32 * |tuples|;
    for i := 0 to |tuples|
      invariant position == HeadOffset(tuples, i)
      invariant |offsets| == i
      invariant forall k :: 0 <= k < i ==> offsets[k] == Heads(tuples)[k]
    {
      offsets := offsets + [Word(position)];
      position := position + |tuples[i]|;
    }
  }

  /** What a contract reads at `at`, by the tuple's own offsets. */
  function CallAt(data: Bytes, at: nat): Call {
    Call(Uint(data, at), BytesAt(data, at + Uint(data, at + 64)))
  }

  function AllowFailureAt(data: Bytes, at: nat): nat { Uint(data, at + 32) }

  /** Reading the encoder's arguments by their offsets gives back every call, allowed to fail. */
  lemma EncodedCallsReadBack(calls: seq<Call>, args: Bytes)
    requires args == EncArgument(Tails(calls, EncCall)) && |args| < WORD_LIMIT
    requires forall c :: c in calls ==> c.target < WORD_LIMIT
    ensures var base := Uint(args, 0);
            && Uint(args, base) == |calls|
            && forall i :: 0 <= i < |calls| ==>
                 CallAt(args, ItemStart(args, base, i)) == calls[i]
                 && AllowFailureAt(args, ItemStart(args, base, i)) == 1
  {
    var tails := Tails(calls, EncCall);
    ReadArgument(args, tails);
    forall i | 0 <= i < |calls|
      ensures CallAt(args, ItemStart(args, 32, i)) == calls[i]
              && AllowFailureAt(args, ItemStart(args, 32, i)) == 1
    {
      assert calls[i] in calls && tails[i] == EncCall(calls[i]);
      ReadCall(args, ItemStart(args, 32, i), calls[i]);
    }
  }

  lemma ReadArgument(args: Bytes, tails: seq<Bytes>)
    requires args == EncArgument(tails) && |args| < WORD_LIMIT
    ensures Uint(args, 0) == 32 && Uint(args, 32) == |tails|
    ensures forall i :: 0 <= i < |tails| ==> Stands(args, ItemStart(args, 32, i), tails[i])
  {
    WordStands(args, 0, 32);
    StandsSplit(args, 0, Word(32), EncArray(tails));
    ReadArray(args, 32, tails);
  }

  lemma ReadCall(data: Bytes, at: nat, c: Call)
    requires Stands(data, at, EncCall(c)) && |data| < WORD_LIMIT && c.target < WORD_LIMIT
    ensures CallAt(data, at) == c && AllowFailureAt(data, at) == 1
  {
    var t, o, p, b := Word(c.target), Word(1), Word(0x60), EncBytes(c.data);
    StandsSplit(data, at, t + o + p, b);
    StandsSplit(data, at, t + o, p);
    StandsSplit(data, at, t, o);
    WordStands(data, at, c.target);
    WordStands(data, at + 32, 1);
    WordStands(data, at + 64, 0x60);
    ReadBytes(data, at + 96, c.data);
  }

  // ----- the decoder ---------------------------------------------------------------------------

  function OutcomeAt(data: Bytes, at: nat): Outcome {
    Outcome(Uint(data, at) == 1, BytesAt(data, at + Uint(data, at + 32)))
  }

  function Items(data: Bytes, base: nat, count: nat): (r: seq<Outcome>)
    ensures |r| == count
  {
    if count == 0 then [] else Items(data, base, count - 1) + [OutcomeAt(data, ItemStart(data, base, count - 1))]
  }

  /** What the decoder makes of any bytes at all: what lies past the end reads as absent. */
  function Decoded(data: Bytes): seq<Outcome> {
    Items(data, Uint(data, 0), Uint(data, Uint(data, 0)))
  }

  method DecodeAggregate3(data: Bytes) returns (out: seq<Outcome>)
    ensures out == Decoded(data)
  {
    var base := Uint(data, 0);
    var count := Uint(data, base);
    out := [];
    for i := 0 to count
      invariant out == Items(data, base, i)
    {
      var start := ItemStart(data, base, i);
      out := out + [OutcomeAt(data, start)];
    }
  }

  lemma {:induction false} ItemsAt(data: Bytes, base: nat, count: nat, i: nat)
    requires i < count
    ensures Items(data, base, count)[i] == OutcomeAt(data, ItemStart(data, base, i))
  {
    if i < count - 1 {
      ItemsAt(data, base, count - 1, i);
    }
  }

  /** The decoder undoes the specification's encoding of any (bool, bytes)[]. */
  lemma DecodeUndoesEncoding(results: seq<Outcome>)
    requires |EncArgument(Tails(results, EncOutcome))| < WORD_LIMIT
    ensures Decoded(EncArgument(Tails(results, EncOutcome))) == results
  {
    var tails := Tails(results, EncOutcome);
    var data := EncArgument(tails);
    ReadArgument(data, tails);
    forall i | 0 <= i < |results| ensures Decoded(data)[i] == results[i] {
      assert tails[i] == EncOutcome(results[i]);
      ReadOutcome(data, ItemStart(data, 32, i), results[i]);
      ItemsAt(data, 32, |results|, i);
    }
  }

  lemma ReadOutcome(data: Bytes, at: nat, r: Outcome)
    requires Stands(data, at, EncOutcome(r)) && |data| < WORD_LIMIT
    ensures OutcomeAt(data, at) == r
  {
    var s, p, b := Word(if r.success then 1 else 0), Word(0x40), EncBytes(r.data);
    StandsSplit(data, at, s + p, b);
    StandsSplit(data, at, s, p);
    WordStands(data, at, if r.success then 1 else 0);
    WordStands(data, at + 32, 0x40);
    ReadBytes(data, at + 64, r.data);
  }
}
