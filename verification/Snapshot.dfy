/** The snapshot's stocks and holdings: what refuses them, and how they are reported. */
module Snapshot {
  import opened Wrappers
  import opened Ordering
  import opened Json
  import Canonical

  /** Something read from the chain: at which block, dated when, which round, and whether it was read at all. */
  datatype Observation = Observation(block: Option<BlockRef>, dated: Option<int>, ref: string, ok: bool)

  datatype BlockRef = BlockRef(chain: int, number: int, time: Option<int>, hash: Option<string>)

  /** A block a snapshot may be pinned to: by its hash, with its time. */
  type Pin = b: BlockRef | b.time.Some? && b.hash.Some? witness BlockRef(1, 0, Some(0), Some(""))

  datatype Finding = Finding(kind: Doc, divergence: Doc)

  /** One stock's readings, and what judging them came to. */
  datatype Stock = Stock(symbol: string, id: int, reading: Observation, seriesOf: int, points: seq<Observation>,
                         entry: Doc, status: string, rule: Doc, findings: seq<Finding>)

  // ----- what refuses a stock ------------------------------------------------------------------

  datatype Rule = BlockPin | AfterPin | OtherSeries | SeriesHead

  /** Everything is read at the block, and nothing in it is dated later. */
  function Pinned(o: Observation, block: Pin): Option<Rule> {
    if o.block != Some(block) then Some(BlockPin)
    else if o.dated.Some? && o.dated.value > block.time.value then Some(AfterPin)
    else None
  }

  function FirstUnpinned(points: seq<Observation>, block: Pin): Option<Rule> {
    if points == [] then None
    else
      var before := FirstUnpinned(points[..|points| - 1], block);
      if before.Some? then before else Pinned(points[|points| - 1], block)
  }

  /** Why a stock's own readings are refused, the first reason of several. */
  function Refused(s: Stock, block: Pin): Option<Rule> {
    var reading := Pinned(s.reading, block);
    if reading.Some? then reading
    else if s.seriesOf != s.id then Some(OtherSeries)
    else
      var point := FirstUnpinned(s.points, block);
      if point.Some? then point
      else if s.points != [] && s.reading.ok && s.points[|s.points| - 1].ref != s.reading.ref then Some(SeriesHead)
      else None
  }

  method CheckReads(points: seq<Observation>, block: Pin) returns (rule: Option<Rule>)
    ensures rule == FirstUnpinned(points, block)
  {
    rule := None;
    for i := 0 to |points|
      invariant rule.None? && FirstUnpinned(points[..i], block).None?
    {
      rule := Pinned(points[i], block);
      assert points[..i + 1][..i] == points[..i];
      if rule.Some? {
        FirstStays(points, block, i + 1);
        return;
      }
    }
    assert points[..|points|] == points;
  }

  method CheckStock(s: Stock, block: Pin) returns (rule: Option<Rule>)
    ensures rule == Refused(s, block)
  {
    rule := Pinned(s.reading, block);
    if rule.Some? {
      return;
    }
    if s.seriesOf != s.id {
      return Some(OtherSeries);
    }
    rule := CheckReads(s.points, block);
    if rule.Some? {
      return;
    }
    if s.points != [] && s.reading.ok && s.points[|s.points| - 1].ref != s.reading.ref {
      return Some(SeriesHead);
    }
  }

  lemma {:induction false} FirstStays(points: seq<Observation>, block: Pin, i: nat)
    requires i <= |points| && FirstUnpinned(points[..i], block).Some?
    ensures FirstUnpinned(points, block) == FirstUnpinned(points[..i], block)
    decreases |points| - i
  {
    if i == |points| {
      assert points[..i] == points;
    } else {
      assert points[..i + 1][..i] == points[..i];
      FirstStays(points, block, i + 1);
    }
  }

  /** A stock passes exactly when everything of it is read at the block and dated no later, its series is
      its own, and its newest round, if both were read, is the one its mark was read from. */
  lemma {:induction false} PassesExactlyWhen(s: Stock, block: Pin)
    ensures Refused(s, block).None? <==>
              && (forall o :: o == s.reading || o in s.points ==>
                    o.block == Some(block) && (o.dated.Some? ==> o.dated.value <= block.time.value))
              && s.seriesOf == s.id
              && (s.points != [] && s.reading.ok ==> s.points[|s.points| - 1].ref == s.reading.ref)
  {
    UnpinnedNowhere(s.points, block);
    assert Pinned(s.reading, block).None? <==>
             s.reading.block == Some(block) && (s.reading.dated.Some? ==> s.reading.dated.value <= block.time.value);
  }

  lemma {:induction false} UnpinnedNowhere(points: seq<Observation>, block: Pin)
    ensures FirstUnpinned(points, block).None? <==> forall o :: o in points ==> Pinned(o, block).None?
  {
    if points != [] {
      var n := |points| - 1;
      UnpinnedNowhere(points[..n], block);
      assert points == points[..n] + [points[n]];
    }
  }

  // ----- the wallet ----------------------------------------------------------------------------

  datatype Holding = Holding(symbol: string, address: string, entry: Doc, summary: Doc)

  /** `taken` are the readings of the marks of cash and gas and of every balance. A balance is None when
      its read failed. Cash and gas are always shown; how a stock or an asset outside the universe is shown
      depends on it and its balance. */
  datatype Wallet = Wallet(taken: seq<Observation>, always: seq<Holding>, apart: set<int>,
                           balances: map<int, Option<nat>>,
                           asStock: (Stock, Option<nat>) -> Holding, asOutside: (int, Option<nat>) -> Holding)

  predicate BySymbolAndAddress(a: Holding, b: Holding) {
    Canonical.TextLe(a.symbol, b.symbol) && (a.symbol == b.symbol ==> Canonical.TextLe(a.address, b.address))
  }

  function ById(stocks: seq<Stock>): map<int, Stock> {
    if stocks == [] then map[] else ById(stocks[..|stocks| - 1])[stocks[|stocks| - 1].id := stocks[|stocks| - 1]]
  }

  predicate Shown(wallet: Wallet, id: int) {
    id in wallet.balances && id !in wallet.apart && wallet.balances[id] != Some(0)
  }

  function ShowAs(wallet: Wallet, byId: map<int, Stock>, id: int): Holding
    requires id in wallet.balances
  {
    if id in byId then wallet.asStock(byId[id], wallet.balances[id]) else wallet.asOutside(id, wallet.balances[id])
  }

  function Rows(wallet: Wallet, byId: map<int, Stock>, ids: seq<int>): seq<Holding> {
    if ids == [] then wallet.always
    else
      var n := |ids| - 1;
      Rows(wallet, byId, ids[..n]) + if Shown(wallet, ids[n]) then [ShowAs(wallet, byId, ids[n])] else []
  }

  function Holdings(wallet: Wallet, stocks: seq<Stock>): seq<Holding> {
    Sort(BySymbolAndAddress, Rows(wallet, ById(stocks), InOrder(wallet.balances.Keys)))
  }

  method KeyStocks(stocks: seq<Stock>) returns (byId: map<int, Stock>)
    ensures byId == ById(stocks)
  {
    byId := map[];
    for i := 0 to |stocks|
      invariant byId == ById(stocks[..i])
    {
      assert stocks[..i + 1][..i] == stocks[..i];
      byId := byId[stocks[i].id := stocks[i]];
    }
    assert stocks[..|stocks|] == stocks;
  }

  method ShowRows(wallet: Wallet, byId: map<int, Stock>, ids: seq<int>) returns (rows: seq<Holding>)
    requires forall i :: 0 <= i < |ids| ==> ids[i] in wallet.balances
    ensures rows == Rows(wallet, byId, ids)
  {
    rows := wallet.always;
    for i := 0 to |ids|
      invariant rows == Rows(wallet, byId, ids[..i])
    {
      assert ids[..i + 1][..i] == ids[..i];
      if ids[i] !in wallet.apart && wallet.balances[ids[i]] != Some(0) {
        rows := rows + [ShowAs(wallet, byId, ids[i])];
      }
    }
    assert ids[..|ids|] == ids;
  }

  method ShowHoldings(wallet: Wallet, stocks: seq<Stock>) returns (out: seq<Holding>)
    ensures out == Holdings(wallet, stocks)
  {
    var byId := KeyStocks(stocks);
    var rows := ShowRows(wallet, byId, InOrder(wallet.balances.Keys));
    return Sort(BySymbolAndAddress, rows);
  }

  lemma {:induction false} RowShown(wallet: Wallet, byId: map<int, Stock>, ids: seq<int>, id: int)
    requires id in ids && Shown(wallet, id)
    ensures ShowAs(wallet, byId, id) in Rows(wallet, byId, ids)
  {
    var n := |ids| - 1;
    if ids[n] != id {
      assert ids == ids[..n] + [ids[n]];
      RowShown(wallet, byId, ids[..n], id);
    }
  }

  /** What is asked of an asset to be listed: it is neither cash nor gas, and is held or could not be read. */
  predicate HeldOrUnread(wallet: Wallet, id: int) {
    && id in wallet.balances && id !in wallet.apart
    && (wallet.balances[id].None? || wallet.balances[id].value > 0)
  }

  /** A balance as it is listed: with the stock of that identity if one was judged, else as an outside asset. */
  ghost predicate ListedAs(wallet: Wallet, stocks: seq<Stock>, id: int, h: Holding)
    requires id in wallet.balances
  {
    (exists s :: s in stocks && s.id == id && h == wallet.asStock(s, wallet.balances[id]))
    || ((forall s :: s in stocks ==> s.id != id) && h == wallet.asOutside(id, wallet.balances[id]))
  }

  lemma {:induction false} ByIdFinds(stocks: seq<Stock>, id: int)
    ensures id in ById(stocks) ==> ById(stocks)[id] in stocks && ById(stocks)[id].id == id
    ensures id !in ById(stocks) ==> forall s :: s in stocks ==> s.id != id
  {
    if stocks != [] {
      var n := |stocks| - 1;
      ByIdFinds(stocks[..n], id);
      assert stocks == stocks[..n] + [stocks[n]];
    }
  }

  /** Whatever its status, nothing that is held or was not read goes missing. */
  lemma NoHoldingIsDropped(wallet: Wallet, stocks: seq<Stock>, id: int) returns (h: Holding)
    requires HeldOrUnread(wallet, id)
    ensures h in Holdings(wallet, stocks) && ListedAs(wallet, stocks, id, h)
  {
    var ids := InOrder(wallet.balances.Keys);
    h := ShowAs(wallet, ById(stocks), id);
    ShownIsListed(wallet, stocks, id);
    RowShown(wallet, ById(stocks), ids, id);
    SortHolds(BySymbolAndAddress, Rows(wallet, ById(stocks), ids));
  }

  lemma {:induction false} RowsAre(wallet: Wallet, byId: map<int, Stock>, ids: seq<int>, h: Holding)
    requires h in Rows(wallet, byId, ids)
    ensures h in wallet.always || exists id :: id in ids && Shown(wallet, id) && h == ShowAs(wallet, byId, id)
  {
    if ids != [] {
      var n := |ids| - 1;
      if h in Rows(wallet, byId, ids[..n]) {
        RowsAre(wallet, byId, ids[..n], h);
      } else {
        assert ids[n] in ids;
      }
    }
  }

  lemma ShownIsListed(wallet: Wallet, stocks: seq<Stock>, id: int)
    requires Shown(wallet, id)
    ensures HeldOrUnread(wallet, id) && ListedAs(wallet, stocks, id, ShowAs(wallet, ById(stocks), id))
  {
    ByIdFinds(stocks, id);
  }

  /** And nothing else is listed than those, cash and gas. */
  lemma NothingElseIsListed(wallet: Wallet, stocks: seq<Stock>, h: Holding)
    requires h in Holdings(wallet, stocks)
    ensures h in wallet.always || exists id :: HeldOrUnread(wallet, id) && ListedAs(wallet, stocks, id, h)
  {
    var ids := InOrder(wallet.balances.Keys);
    SortHolds(BySymbolAndAddress, Rows(wallet, ById(stocks), ids));
    RowsAre(wallet, ById(stocks), ids, h);
    if h !in wallet.always {
      var id :| id in ids && Shown(wallet, id) && h == ShowAs(wallet, ById(stocks), id);
      ShownIsListed(wallet, stocks, id);
    }
  }

  lemma {:induction false} AlwaysListed(wallet: Wallet, byId: map<int, Stock>, ids: seq<int>)
    ensures wallet.always <= Rows(wallet, byId, ids)
  {
    if ids != [] {
      AlwaysListed(wallet, byId, ids[..|ids| - 1]);
    }
  }

  lemma BySymbolAndAddressIsOrder()
    ensures Preorder(BySymbolAndAddress)
  {
    forall a: Holding, b: Holding ensures BySymbolAndAddress(a, b) || BySymbolAndAddress(b, a) {
      Canonical.TextTotal(a.symbol, b.symbol);
      Canonical.TextTotal(a.address, b.address);
    }
    forall a: Holding, b: Holding, c: Holding | BySymbolAndAddress(a, b) && BySymbolAndAddress(b, c)
      ensures BySymbolAndAddress(a, c)
    {
      Canonical.TextTransitive(a.symbol, b.symbol, c.symbol);
      if a.symbol == c.symbol {
        Canonical.TextTotal(a.symbol, b.symbol);
        Canonical.TextTransitive(a.address, b.address, c.address);
      }
    }
  }

  /** Cash and gas are listed, and the list goes by symbol, then by address. */
  lemma HoldingsInOrder(wallet: Wallet, stocks: seq<Stock>, j: nat, k: nat)
    ensures forall h :: h in wallet.always ==> h in Holdings(wallet, stocks)
    ensures j < k < |Holdings(wallet, stocks)| ==>
              var a, b := Holdings(wallet, stocks)[j], Holdings(wallet, stocks)[k];
              && Canonical.TextLe(a.symbol, b.symbol)
              && (a.symbol == b.symbol ==> Canonical.TextLe(a.address, b.address))
  {
    var rows := Rows(wallet, ById(stocks), InOrder(wallet.balances.Keys));
    AlwaysListed(wallet, ById(stocks), InOrder(wallet.balances.Keys));
    SortHolds(BySymbolAndAddress, rows);
    BySymbolAndAddressIsOrder();
    SortSorts(BySymbolAndAddress, rows);
    if j < k < |Holdings(wallet, stocks)| {
      assert BySymbolAndAddress(Holdings(wallet, stocks)[j], Holdings(wallet, stocks)[k]);
    }
  }

  // ----- the report ----------------------------------------------------------------------------

  /** By symbol, and by identity among stocks of one symbol. */
  predicate BySymbol(a: Stock, b: Stock) {
    Canonical.TextLe(a.symbol, b.symbol) && (a.symbol == b.symbol ==> a.id <= b.id)
  }

  /** One more of `status`, where its count is or at the end. */
  function Counted(counts: seq<Field>, status: string): seq<Field> {
    if counts == [] then [Field(status, Num(1))]
    else if counts[0].name == status && counts[0].value.Num? then
      [Field(status, Num(counts[0].value.n + 1))] + counts[1..]
    else [counts[0]] + Counted(counts[1..], status)
  }

  function Counts(stocks: seq<Stock>): seq<Field> {
    if stocks == [] then [] else Counted(Counts(stocks[..|stocks| - 1]), stocks[|stocks| - 1].status)
  }

  function Entry(s: Stock): Doc { s.entry }

  function Line(s: Stock): Doc { Arr([Str(s.symbol), Str(s.status), s.rule]) }

  function FindingsOf(s: Stock): seq<Doc> {
    seq(|s.findings|, i requires 0 <= i < |s.findings| =>
                        Arr([Str(s.symbol), s.findings[i].kind, s.findings[i].divergence]))
  }

  function Findings(stocks: seq<Stock>): seq<Doc> {
    if stocks == [] then [] else Findings(stocks[..|stocks| - 1]) + FindingsOf(stocks[|stocks| - 1])
  }

  function HoldingEntry(h: Holding): Doc { h.entry }

  function HoldingLine(h: Holding): Doc { h.summary }

  /** The parts of the document that come from the stocks and the wallet. */
  function Document(entries: seq<Doc>, holdings: seq<Holding>,
                    counts: seq<Field>, lines: seq<Doc>, findings: seq<Doc>): Doc {
    Obj([Field("assets", Arr(entries)),
         Field("holdings", Arr(Mapped(HoldingEntry, holdings))),
         Field("summary", Obj([Field("counts", Obj(counts)), Field("assets", Arr(lines)),
                               Field("findings", Arr(findings)),
                               Field("holdings", Arr(Mapped(HoldingLine, holdings)))]))])
  }

  function Report(stocks: seq<Stock>, wallet: Wallet): Doc {
    var sorted := Sort(BySymbol, stocks);
    Document(Mapped(Entry, sorted), Holdings(wallet, stocks), Counts(sorted), Mapped(Line, sorted), Findings(sorted))
  }

  ghost predicate ReadOnce(stocks: seq<Stock>) {
    forall i, j :: 0 <= i < j < |stocks| ==> stocks[i].id != stocks[j].id
  }

  ghost predicate FitStocks(stocks: seq<Stock>, block: Pin) {
    ReadOnce(stocks) && forall s :: s in stocks ==> Refused(s, block).None?
  }

  ghost predicate Acceptable(stocks: seq<Stock>, wallet: Wallet, block: BlockRef) {
    && block.time.Some? && block.hash.Some?
    && FitStocks(stocks, block) && forall o :: o in wallet.taken ==> Pinned(o, block).None?
  }

  datatype Refusal = ReadTwice(id: int) | Unfit(id: int, rule: Rule) | WalletUnfit(rule: Rule) | NoPin

  /** Every stock once and each fit, or the first that is not. */
  method CheckStocks(stocks: seq<Stock>, block: Pin) returns (refusal: Option<Refusal>)
    ensures refusal.None? <==> FitStocks(stocks, block)
    ensures refusal.Some? ==> refusal.value.ReadTwice? || refusal.value.Unfit?
    ensures refusal.Some? && refusal.value.ReadTwice? ==>
              exists i, j :: 0 <= i < j < |stocks| && stocks[i].id == stocks[j].id == refusal.value.id
    ensures refusal.Some? && refusal.value.Unfit? ==>
              exists s :: s in stocks && s.id == refusal.value.id && Refused(s, block) == Some(refusal.value.rule)
  {
    var seen: set<int> := {};
    for i := 0 to |stocks|
      invariant FitStocks(stocks[..i], block)
      invariant forall id :: id in seen <==> exists k :: 0 <= k < i && stocks[k].id == id
    {
      var s := stocks[i];
      assert s in stocks;
      if s.id in seen {
        return Some(ReadTwice(s.id));
      }
      seen := seen + {s.id};
      var rule := CheckStock(s, block);
      if rule.Some? {
        return Some(Unfit(s.id, rule.value));
      }
      assert stocks[..i + 1] == stocks[..i] + [s];
    }
    assert stocks[..|stocks|] == stocks;
    return None;
  }

  /** Refuse, or report what was read in one order whatever order it came in. */
  method Assemble(stocks: seq<Stock>, wallet: Wallet, block: BlockRef) returns (r: Result<Doc, Refusal>)
    ensures r.Ok? <==> Acceptable(stocks, wallet, block)
    ensures r.Ok? ==> r.value == Report(stocks, wallet)
    ensures r.Err? ==>
              match r.error
              case NoPin => block.time.None? || block.hash.None?
              case ReadTwice(id) => exists i, j :: 0 <= i < j < |stocks| && stocks[i].id == stocks[j].id == id
              case Unfit(id, rule) =>
                && block.time.Some? && block.hash.Some?
                && exists s :: s in stocks && s.id == id && Refused(s, block) == Some(rule)
              case WalletUnfit(rule) =>
                && block.time.Some? && block.hash.Some?
                && FitStocks(stocks, block) && FirstUnpinned(wallet.taken, block) == Some(rule)
  {
    if block.time.None? || block.hash.None? {
      return Err(NoPin);
    }
    var refusal := CheckStocks(stocks, block);
    if refusal.Some? {
      return Err(refusal.value);
    }
    var rule := CheckReads(wallet.taken, block);
    UnpinnedNowhere(wallet.taken, block);
    if rule.Some? {
      return Err(WalletUnfit(rule.value));
    }
    var sorted := Sort(BySymbol, stocks);
    var entries, lines, counts, findings := Sections(sorted);
    var holdings := ShowHoldings(wallet, stocks);
    return Ok(Document(entries, holdings, counts, lines, findings));
  }

  method Sections(stocks: seq<Stock>)
    returns (entries: seq<Doc>, lines: seq<Doc>, counts: seq<Field>, findings: seq<Doc>)
    ensures entries == Mapped(Entry, stocks) && lines == Mapped(Line, stocks)
    ensures counts == Counts(stocks) && findings == Findings(stocks)
  {
    entries, lines, counts, findings := [], [], [], [];
    for i := 0 to |stocks|
      invariant entries == Mapped(Entry, stocks[..i]) && lines == Mapped(Line, stocks[..i])
      invariant counts == Counts(stocks[..i]) && findings == Findings(stocks[..i])
    {
      assert stocks[..i + 1][..i] == stocks[..i];
      entries, lines := entries + [Entry(stocks[i])], lines + [Line(stocks[i])];
      counts, findings := Counted(counts, stocks[i].status), findings + FindingsOf(stocks[i]);
    }
    assert stocks[..|stocks|] == stocks;
  }

  // ----- any order of the same stocks ----------------------------------------------------------

  lemma BySymbolIsOrder()
    ensures Preorder(BySymbol)
  {
    forall a: Stock, b: Stock ensures BySymbol(a, b) || BySymbol(b, a) {
      Canonical.TextTotal(a.symbol, b.symbol);
    }
    forall a: Stock, b: Stock, c: Stock | BySymbol(a, b) && BySymbol(b, c) ensures BySymbol(a, c) {
      Canonical.TextTransitive(a.symbol, b.symbol, c.symbol);
      if a.symbol == c.symbol {
        Canonical.TextTotal(a.symbol, b.symbol);
      }
    }
  }

  lemma IdentitiesTell(stocks: seq<Stock>)
    requires ReadOnce(stocks)
    ensures NoTies(BySymbol, multiset(stocks))
  {
    forall a, b | a in multiset(stocks) && b in multiset(stocks) && BySymbol(a, b) && BySymbol(b, a) ensures a == b {
      Canonical.TextTotal(a.symbol, b.symbol);
      var i :| 0 <= i < |stocks| && stocks[i] == a;
      var j :| 0 <= j < |stocks| && stocks[j] == b;
    }
  }

  /** No stock is read twice in one arrangement if none is in another. */
  lemma ReadOnceEitherWay(a: seq<Stock>, b: seq<Stock>)
    requires multiset(a) == multiset(b) && ReadOnce(a)
    ensures ReadOnce(b)
  {
    forall i, j | 0 <= i < j < |b| ensures b[i].id != b[j].id {
      if b[i].id == b[j].id {
        assert b[i] in multiset(a) && b[j] in multiset(a);
        var k :| 0 <= k < |a| && a[k] == b[i];
        var m :| 0 <= m < |a| && a[m] == b[j];
        assert k == m;
        TwiceInIt(b, i, j);
        OnceInIt(a, k);
      }
    }
  }

  lemma TwiceInIt(s: seq<Stock>, i: nat, j: nat)
    requires i < j < |s| && s[i] == s[j]
    ensures multiset(s)[s[i]] >= 2
  {
    assert s == s[..i] + ([s[i]] + (s[i + 1..j] + ([s[j]] + s[j + 1..])));
  }

  lemma OnceInIt(s: seq<Stock>, k: nat)
    requires k < |s| && ReadOnce(s)
    ensures multiset(s)[s[k]] == 1
  {
    assert s == s[..k] + ([s[k]] + s[k + 1..]);
    assert s[k] !in s[..k] && s[k] !in s[k + 1..];
  }

  lemma {:induction false} ByIdHolds(stocks: seq<Stock>)
    requires ReadOnce(stocks)
    ensures forall s :: s in stocks ==> s.id in ById(stocks) && ById(stocks)[s.id] == s
    ensures forall id :: id in ById(stocks) ==> ById(stocks)[id] in stocks && ById(stocks)[id].id == id
  {
    if stocks != [] {
      var n := |stocks| - 1;
      ByIdHolds(stocks[..n]);
      assert stocks == stocks[..n] + [stocks[n]];
      forall s | s in stocks[..n] ensures s.id != stocks[n].id {
        var k :| 0 <= k < n && stocks[k] == s;
      }
    }
  }

  lemma SameById(a: seq<Stock>, b: seq<Stock>)
    requires ReadOnce(a) && ReadOnce(b) && forall s :: s in a <==> s in b
    ensures ById(a) == ById(b)
  {
    ByIdHolds(a);
    ByIdHolds(b);
    assert forall id :: id in ById(a) ==> ById(a)[id] in b && ById(a)[id].id == id;
    assert forall id :: id in ById(b) ==> ById(b)[id] in a && ById(b)[id].id == id;
    forall id | id in ById(a) ensures id in ById(b) && ById(b)[id] == ById(a)[id] {
      assert ById(a)[id] in b;
    }
    forall id | id in ById(b) ensures id in ById(a) {
      assert ById(b)[id] in a;
    }
  }

  /** The order the stocks come in decides neither whether they are refused nor one byte of the report. */
  lemma StockOrderDoesNotMatter(a: seq<Stock>, b: seq<Stock>, wallet: Wallet, block: BlockRef)
    requires multiset(a) == multiset(b)
    ensures Acceptable(a, wallet, block) <==> Acceptable(b, wallet, block)
    ensures Acceptable(a, wallet, block) ==>
              Report(a, wallet) == Report(b, wallet)
              && Canonical.Canonical(Report(a, wallet)) == Canonical.Canonical(Report(b, wallet))
  {
    forall s ensures s in a <==> s in b {
      assert s in multiset(a) <==> s in multiset(b);
    }
    if ReadOnce(a) {
      ReadOnceEitherWay(a, b);
      SameById(a, b);
      SameSorted(a, b);
    }
    if ReadOnce(b) {
      ReadOnceEitherWay(b, a);
    }
  }

  lemma SameSorted(a: seq<Stock>, b: seq<Stock>)
    requires multiset(a) == multiset(b) && ReadOnce(a)
    ensures Sort(BySymbol, a) == Sort(BySymbol, b)
  {
    IdentitiesTell(a);
    BySymbolIsOrder();
    SortIgnoresOrder(BySymbol, a, b);
  }

  // ----- the counts ----------------------------------------------------------------------------

  function HowMany(stocks: seq<Stock>, status: string): nat {
    if stocks == [] then 0
    else HowMany(stocks[..|stocks| - 1], status) + if stocks[|stocks| - 1].status == status then 1 else 0
  }

  /** What is counted under a name; nothing for a name that is not there. */
  function CountOf(counts: seq<Field>, status: string): int {
    if counts == [] then 0
    else if counts[0].name == status && counts[0].value.Num? then counts[0].value.n
    else CountOf(counts[1..], status)
  }

  lemma {:induction false} CountedCounts(counts: seq<Field>, status: string, other: string)
    ensures CountOf(Counted(counts, status), other) == CountOf(counts, other) + if other == status then 1 else 0
  {
    if counts != [] && !(counts[0].name == status && counts[0].value.Num?) {
      CountedCounts(counts[1..], status, other);
    }
  }

  /** Every status is counted as often as it occurs. */
  lemma {:induction false} CountsAreRight(stocks: seq<Stock>, status: string)
    ensures CountOf(Counts(stocks), status) == HowMany(stocks, status)
  {
    if stocks != [] {
      CountsAreRight(stocks[..|stocks| - 1], status);
      CountedCounts(Counts(stocks[..|stocks| - 1]), stocks[|stocks| - 1].status, status);
    }
  }
}
