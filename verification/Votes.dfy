/** The risk agent's reply and its power to veto. */
module Votes {
  // The reply is read line by line and fails closed. Lines come classified: what matched an ORDER, an
  // OVERALL or a RISK line.

  import opened Wrappers
  import opened Ordering
  import Settle

  datatype Vote = Approve | Veto

  datatype Kind = OrderLine(index: int, symbol: Option<string>, vote: Vote, rest: string)
                | OverallLine(verdict: Vote, why: string)
                | Other

  /** `plan` is the plan a RISK line names; symbols and plans are in one letter case. */
  datatype Line = Line(text: string, plan: Option<string>, kind: Kind)

  /** Where the text of further lines goes: nowhere, onto a reason, or onto one that is not kept. */
  datatype Current = Nowhere | Unkept | OfOrder(index: int) | OfOverall

  datatype Reading = Reading(votes: map<int, (Vote, seq<string>)>, unclear: set<int>,
                             overall: Option<(Vote, seq<string>)>, current: Current)

  type Symbols = map<int, string>

  function Words(rest: string): seq<string> { if rest == "" then [] else [rest] }

  /** A line on an order of the plan, under its own symbol or none. */
  predicate CountsFor(line: Line, symbols: Symbols, i: int) {
    && line.kind.OrderLine? && line.kind.index == i && i in symbols
    && (line.kind.symbol.None? || line.kind.symbol.value == symbols[i])
  }

  /** A line on an order of the plan, under another order's symbol. */
  predicate Misnames(line: Line, symbols: Symbols, i: int) {
    && line.kind.OrderLine? && line.kind.index == i && i in symbols
    && line.kind.symbol.Some? && line.kind.symbol.value != symbols[i]
  }

  function AddText(r: Reading, text: string): Reading {
    match r.current
    case OfOrder(i) =>
      if i in r.votes then r.(votes := r.votes[i := (r.votes[i].0, r.votes[i].1 + [text])]) else r
    case OfOverall =>
      if r.overall.Some? then r.(overall := Some((r.overall.value.0, r.overall.value.1 + [text]))) else r
    case _ => r
  }

  /** What one line makes of the reading. */
  function Read(r: Reading, line: Line, symbols: Symbols): Reading {
    match line.kind
    case OrderLine(i, symbol, vote, rest) =>
      if i !in symbols then r.(current := Nowhere)
      else if symbol.Some? && symbol.value != symbols[i] then r.(unclear := r.unclear + {i}, current := Nowhere)
      else if i in r.votes then
        r.(unclear := if r.votes[i].0 != vote then r.unclear + {i} else r.unclear, current := Unkept)
      else r.(votes := r.votes[i := (vote, Words(rest))], current := OfOrder(i))
    case OverallLine(vote, why) =>
      if r.overall.None? then r.(overall := Some((vote, Words(why))), current := OfOverall)
      else if line.text != "" then AddText(r, line.text) else r
    case Other => if line.text != "" then AddText(r, line.text) else r
  }

  function ReadAll(lines: seq<Line>, symbols: Symbols): Reading {
    if lines == [] then Reading(map[], {}, None, Nowhere)
    else Read(ReadAll(lines[..|lines| - 1], symbols), lines[|lines| - 1], symbols)
  }

  datatype Unreadable = OtherPlan | NoOrderLine

  /** What a readable reply says: of single orders, and of the plan. */
  datatype Reply = Reply(orders: map<int, (Vote, seq<string>)>, overall: Option<(Vote, seq<string>)>)

  /** The first RISK line. */
  function Head(lines: seq<Line>): Option<string> {
    if lines == [] then None else if lines[0].plan.Some? then lines[0].plan else Head(lines[1..])
  }

  method Parse(lines: seq<Line>, symbols: Symbols, plan: string) returns (r: Result<Reply, Unreadable>)
    ensures r == Err(OtherPlan) <==> Head(lines).Some? && Head(lines).value != plan
    ensures r == Err(NoOrderLine) <==>
              (Head(lines).Some? ==> Head(lines).value == plan)
              && ReadAll(lines, symbols).votes == map[] && symbols != map[]
    ensures r.Ok? ==> var reading := ReadAll(lines, symbols);
              && r.value.orders == (map i | i in reading.votes && i !in reading.unclear :: reading.votes[i])
              && r.value.overall == reading.overall
  {
    var head := Head(lines);
    if head.Some? && head.value != plan {
      return Err(OtherPlan);
    }
    var votes: map<int, (Vote, seq<string>)>, unclear: set<int> := map[], {};
    var overall: Option<(Vote, seq<string>)>, current := None, Nowhere;
    for k := 0 to |lines|
      invariant Reading(votes, unclear, overall, current) == ReadAll(lines[..k], symbols)
    {
      assert lines[..k + 1][..k] == lines[..k];
      var line := lines[k];
      if line.kind.OrderLine? {
        var OrderLine(index, symbol, vote, rest) := line.kind;
        if index !in symbols {
          current := Nowhere;
        } else if symbol.Some? && symbol.value != symbols[index] {
          unclear, current := unclear + {index}, Nowhere;
        } else {
          if index in votes && votes[index].0 != vote {
            unclear := unclear + {index};
          }
          if index in votes {
            current := Unkept;
          } else {
            votes, current := votes[index := (vote, Words(rest))], OfOrder(index);
          }
        }
      } else if line.kind.OverallLine? && overall.None? {
        overall, current := Some((line.kind.verdict, Words(line.kind.why))), OfOverall;
      } else if line.text != "" {
        match current
        case OfOrder(i) =>
          if i in votes { votes := votes[i := (votes[i].0, votes[i].1 + [line.text])]; }
        case OfOverall =>
          if overall.Some? { overall := Some((overall.value.0, overall.value.1 + [line.text])); }
        case _ =>
      }
    }
    assert lines[..|lines|] == lines;
    if votes == map[] && symbols != map[] {
      return Err(NoOrderLine);
    }
    return Ok(Reply(map i | i in votes && i !in unclear :: votes[i], overall));
  }

  // ----- what a clear vote is ------------------------------------------------------------------

  /** An order is voted on clearly: some line counts for it, all that do agree, and none misnames it. */
  ghost predicate Clear(lines: seq<Line>, symbols: Symbols, i: int, v: Vote) {
    && (exists line :: line in lines && CountsFor(line, symbols, i))
    && (forall line :: line in lines && CountsFor(line, symbols, i) ==> line.kind.vote == v)
    && (forall line :: line in lines ==> !Misnames(line, symbols, i))
  }

  ghost predicate SomeCounts(lines: seq<Line>, symbols: Symbols, i: int) {
    exists line :: line in lines && CountsFor(line, symbols, i)
  }

  /** The first vote that counts for an order. */
  function FirstVote(lines: seq<Line>, symbols: Symbols, i: int): Option<Vote> {
    if lines == [] then None
    else
      var before := FirstVote(lines[..|lines| - 1], symbols, i);
      if before.Some? then before
      else if CountsFor(lines[|lines| - 1], symbols, i) then Some(lines[|lines| - 1].kind.vote) else None
  }

  /** Some line misnames the order, or votes on it otherwise than the first. */
  ghost predicate Muddled(lines: seq<Line>, symbols: Symbols, i: int) {
    exists line :: line in lines
      && (Misnames(line, symbols, i)
          || (CountsFor(line, symbols, i)
              && Some(line.kind.vote) != FirstVote(lines, symbols, i)))
  }

  function VoteIn(r: Reading, i: int): Option<Vote> { if i in r.votes then Some(r.votes[i].0) else None }

  lemma {:induction false} ReadsFirstVote(lines: seq<Line>, symbols: Symbols, i: int)
    ensures VoteIn(ReadAll(lines, symbols), i) == FirstVote(lines, symbols, i)
    ensures FirstVote(lines, symbols, i).Some? <==> SomeCounts(lines, symbols, i)
  {
    if lines != [] {
      var n := |lines| - 1;
      ReadsFirstVote(lines[..n], symbols, i);
      assert lines == lines[..n] + [lines[n]];
      if FirstVote(lines[..n], symbols, i).Some? {
        var line :| line in lines[..n] && CountsFor(line, symbols, i);
        assert line in lines;
      }
    }
  }

  lemma {:induction false} ReadsMuddle(lines: seq<Line>, symbols: Symbols, i: int)
    ensures i in ReadAll(lines, symbols).unclear <==> Muddled(lines, symbols, i)
  {
    if lines != [] {
      var n := |lines| - 1;
      var before, last := lines[..n], lines[n];
      ReadsMuddle(before, symbols, i);
      ReadsFirstVote(before, symbols, i);
      MuddleGrows(before, last, symbols, i);
      assert lines == before + [last];
    }
  }

  lemma MuddleGrows(before: seq<Line>, last: Line, symbols: Symbols, i: int)
    ensures var lines := before + [last];
            Muddled(lines, symbols, i) <==>
              Muddled(before, symbols, i) || Misnames(last, symbols, i)
              || (CountsFor(last, symbols, i) && FirstVote(before, symbols, i).Some?
                  && FirstVote(before, symbols, i).value != last.kind.vote)
  {
    var lines := before + [last];
    assert lines[..|lines| - 1] == before && lines[|lines| - 1] == last;
    ReadsFirstVote(before, symbols, i);
    if Muddled(before, symbols, i) {
      var line :| line in before
        && (Misnames(line, symbols, i)
            || (CountsFor(line, symbols, i)
                && Some(line.kind.vote) != FirstVote(before, symbols, i)));
      assert line in lines;
    }
    assert last in lines;
  }

  /** A vote is read for an order exactly when it is clear: whatever the order of the lines. */
  lemma VotesAreTheClearOnes(lines: seq<Line>, symbols: Symbols, i: int, v: Vote)
    ensures var r := ReadAll(lines, symbols);
            ClearVote(r, i) == Some(v) <==> Clear(lines, symbols, i, v)
  {
    ReadsFirstVote(lines, symbols, i);
    ReadsMuddle(lines, symbols, i);
    var r := ReadAll(lines, symbols);
    if Clear(lines, symbols, i, v) {
      FirstIsOne(lines, symbols, i);
    }
    if i in r.votes && i !in r.unclear && r.votes[i].0 == v {
      assert FirstVote(lines, symbols, i) == Some(v);
    }
  }

  lemma {:induction false} FirstIsOne(lines: seq<Line>, symbols: Symbols, i: int)
    requires FirstVote(lines, symbols, i).Some?
    ensures exists line :: line in lines && CountsFor(line, symbols, i)
              && FirstVote(lines, symbols, i) == Some(line.kind.vote)
  {
    var n := |lines| - 1;
    if FirstVote(lines[..n], symbols, i).Some? {
      FirstIsOne(lines[..n], symbols, i);
      var line :| line in lines[..n] && CountsFor(line, symbols, i)
          && FirstVote(lines[..n], symbols, i) == Some(line.kind.vote);
      assert line in lines;
    } else {
      assert lines[n] in lines;
    }
  }

  /** The clear vote on an order, as it was read. */
  function ClearVote(r: Reading, i: int): Option<Vote> {
    if i in r.votes && i !in r.unclear then Some(r.votes[i].0) else None
  }

  /** Rearranging the lines changes no vote that is read, nor whether any is. */
  lemma LineOrderDoesNotMatter(a: seq<Line>, b: seq<Line>, symbols: Symbols, i: int)
    requires multiset(a) == multiset(b)
    ensures ClearVote(ReadAll(a, symbols), i) == ClearVote(ReadAll(b, symbols), i)
    ensures (ReadAll(a, symbols).votes == map[]) <==> (ReadAll(b, symbols).votes == map[])
  {
    forall line ensures line in a <==> line in b {
      assert line in multiset(a) <==> line in multiset(b);
    }
    VotesAreTheClearOnes(a, symbols, i, Approve);
    VotesAreTheClearOnes(a, symbols, i, Veto);
    VotesAreTheClearOnes(b, symbols, i, Approve);
    VotesAreTheClearOnes(b, symbols, i, Veto);
    assert forall v :: Clear(a, symbols, i, v) <==> Clear(b, symbols, i, v);
    OneOfTwo(ClearVote(ReadAll(a, symbols), i), ClearVote(ReadAll(b, symbols), i));
    if ReadAll(a, symbols).votes != map[] {
      StillVoted(a, b, symbols);
    }
    if ReadAll(b, symbols).votes != map[] {
      StillVoted(b, a, symbols);
    }
  }

  lemma OneOfTwo(a: Option<Vote>, b: Option<Vote>)
    ensures (a == Some(Approve) <==> b == Some(Approve)) && (a == Some(Veto) <==> b == Some(Veto)) ==> a == b
  {
    assert a.Some? ==> a.value == Approve || a.value == Veto;
    assert b.Some? ==> b.value == Approve || b.value == Veto;
  }

  lemma SomeKey(m: map<int, (Vote, seq<string>)>)
    ensures m != map[] ==> exists k :: k in m
  {
    if forall k :: k !in m {
      assert m == map[];
    }
  }

  lemma StillVoted(a: seq<Line>, b: seq<Line>, symbols: Symbols)
    requires (forall line :: line in a ==> line in b) && ReadAll(a, symbols).votes != map[]
    ensures ReadAll(b, symbols).votes != map[]
  {
    var votes := ReadAll(a, symbols).votes;
    SomeKey(votes);
    var i :| i in votes;
    ReadsFirstVote(a, symbols, i);
    ReadsFirstVote(b, symbols, i);
    var line :| line in a && CountsFor(line, symbols, i);
    assert i in ReadAll(b, symbols).votes;
  }

  /** The overall vote is the first: one that comes later and says otherwise is not heeded. */
  lemma {:induction false} OverallIsTheFirst(lines: seq<Line>, more: seq<Line>, symbols: Symbols)
    requires ReadAll(lines, symbols).overall.Some?
    ensures var later := ReadAll(lines + more, symbols).overall;
            later.Some? && later.value.0 == ReadAll(lines, symbols).overall.value.0
  {
    if more == [] {
      assert lines + more == lines;
    } else {
      var n := |more| - 1;
      OverallIsTheFirst(lines, more[..n], symbols);
      assert (lines + more)[..|lines + more| - 1] == lines + more[..n];
    }
  }

  // ----- the override rule ---------------------------------------------------------------------

  const RULE_RISK := "risk"
  const RULE_OVERALL := "risk-overall"
  const RULE_NO_VOTE := "risk-no-vote"
  const RULE_CASH_FLOOR := "cash-floor"

  /** One order as the gates judged it. */
  datatype Gated = Gated(index: int, cleared: bool, blockedBy: seq<string>)

  datatype Entry = Entry(index: int, approved: bool, vetoedBy: seq<string>)

  /** Every rule against an order, before the floor. */
  function Against(g: Gated, reply: Option<Reply>, noReply: string): seq<string> {
    if reply.None? then if noReply in g.blockedBy then g.blockedBy else g.blockedBy + [noReply]
    else if g.index !in reply.value.orders then g.blockedBy + [RULE_NO_VOTE]
    else
      g.blockedBy
      + (if reply.value.orders[g.index].0 != Approve then [RULE_RISK] else [])
      + (if reply.value.overall.Some? && reply.value.overall.value.0 != Approve then [RULE_OVERALL] else [])
  }

  predicate Passes(g: Gated, reply: Option<Reply>, noReply: string) {
    g.cleared && Against(g, reply, noReply) == []
  }

  /** What it takes to pass: every gate, a clear approval, and no overall veto. */
  lemma PassingTakes(g: Gated, reply: Option<Reply>, noReply: string)
    ensures Passes(g, reply, noReply) <==>
              && g.cleared && g.blockedBy == []
              && reply.Some? && g.index in reply.value.orders && reply.value.orders[g.index].0 == Approve
              && (reply.value.overall.Some? ==> reply.value.overall.value.0 == Approve)
  {
  }

  function Passing(gated: seq<Gated>, reply: Option<Reply>, noReply: string): seq<int> {
    if gated == [] then []
    else
      var n := |gated| - 1;
      Passing(gated[..n], reply, noReply) + if Passes(gated[n], reply, noReply) then [gated[n].index] else []
  }

  function EntryFor(g: Gated, reply: Option<Reply>, noReply: string): Entry {
    Entry(g.index, Passes(g, reply, noReply), Against(g, reply, noReply))
  }

  method RulesAgainst(g: Gated, reply: Option<Reply>, noReply: string) returns (rules: seq<string>)
    ensures rules == Against(g, reply, noReply)
  {
    rules := g.blockedBy;
    if reply.None? {
      if noReply !in rules { rules := rules + [noReply]; }
    } else if g.index !in reply.value.orders {
      rules := rules + [RULE_NO_VOTE];
    } else {
      if reply.value.orders[g.index].0 != Approve { rules := rules + [RULE_RISK]; }
      if reply.value.overall.Some? && reply.value.overall.value.0 != Approve { rules := rules + [RULE_OVERALL]; }
    }
  }

  /** What the rule makes of every order. */
  function Entries(gated: seq<Gated>, reply: Option<Reply>, noReply: string): seq<Entry> {
    seq(|gated|, k requires 0 <= k < |gated| => EntryFor(gated[k], reply, noReply))
  }

  lemma OneMoreGated(gated: seq<Gated>, reply: Option<Reply>, noReply: string, k: nat)
    requires k < |gated|
    ensures Entries(gated[..k + 1], reply, noReply)
            == Entries(gated[..k], reply, noReply) + [EntryFor(gated[k], reply, noReply)]
    ensures Passing(gated[..k + 1], reply, noReply)
         == Passing(gated[..k], reply, noReply) + if Passes(gated[k], reply, noReply) then [gated[k].index] else []
  {
    assert gated[..k + 1][..k] == gated[..k];
  }

  /** The override rule, order by order. */
  method Override(gated: seq<Gated>, reply: Option<Reply>, noReply: string)
    returns (decided: seq<Entry>, approved: seq<int>)
    ensures decided == Entries(gated, reply, noReply) && approved == Passing(gated, reply, noReply)
  {
    decided, approved := [], [];
    for k := 0 to |gated|
      invariant decided == Entries(gated[..k], reply, noReply) && approved == Passing(gated[..k], reply, noReply)
    {
      OneMoreGated(gated, reply, noReply, k);
      var entry := EntryOf(gated[k], reply, noReply);
      decided := decided + [entry];
      if entry.approved { approved := approved + [entry.index]; }
    }
    assert gated[..|gated|] == gated;
  }

  method EntryOf(g: Gated, reply: Option<Reply>, noReply: string) returns (entry: Entry)
    ensures entry == EntryFor(g, reply, noReply)
  {
    var rules := RulesAgainst(g, reply, noReply);
    entry := Entry(g.index, g.cleared && rules == [], rules);
  }

  function Dropped(e: Entry, dropped: seq<int>): Entry {
    if e.index in dropped then Entry(e.index, false, e.vetoedBy + [RULE_CASH_FLOOR]) else e
  }

  method MarkDropped(decided: seq<Entry>, dropped: seq<int>) returns (entries: seq<Entry>)
    ensures |entries| == |decided| && forall k :: 0 <= k < |decided| ==> entries[k] == Dropped(decided[k], dropped)
  {
    entries := [];
    for k := 0 to |decided|
      invariant |entries| == k && forall j :: 0 <= j < k ==> entries[j] == Dropped(decided[j], dropped)
    {
      entries := entries + [Dropped(decided[k], dropped)];
    }
  }

  /** Approval, order by order: passing the rule above and surviving the floor, and nothing else. */
  method Decide(gated: seq<Gated>, reply: Option<Reply>, noReply: string, orders: Settle.Orders,
                planCashUsd: real, floorUsd: Option<real>)
    returns (r: Result<(seq<Entry>, Settle.Settlement), Settle.Refusal>)
    ensures r.Ok? <==> Settle.Priced(orders, {}, Sort(IntLe, Settle.InPlan(orders, Passing(gated, reply, noReply))))
    ensures r.Ok? ==>
              var ids := Sort(IntLe, Settle.InPlan(orders, Passing(gated, reply, noReply)));
              Settle.Settled(orders, {}, ids, planCashUsd, floorUsd, r.value.1)
    ensures r.Ok? ==> |r.value.0| == |gated|
    ensures r.Ok? ==> forall k :: 0 <= k < |gated| ==>
              var g, e := gated[k], r.value.0[k];
              && e.index == g.index
              && (e.approved <==> Passes(g, reply, noReply) && g.index !in r.value.1.dropped)
              && e.vetoedBy == Against(g, reply, noReply)
                               + if g.index in r.value.1.dropped then [RULE_CASH_FLOOR] else []
    ensures r.Err? ==>
              r.error.NoMark? && r.error.index in Passing(gated, reply, noReply) && r.error.index in orders
              && orders[r.error.index].worth.None?
  {
    var decided, approved := Override(gated, reply, noReply);
    var settled := Settle.SettleFloor(orders, approved, planCashUsd, floorUsd, None, {});
    if settled.Err? {
      return Err(settled.error);
    }
    var entries := MarkDropped(decided, settled.value.dropped);
    return Ok((entries, settled.value));
  }

  /** An approved order cleared every gate, was clearly approved, met no overall veto, and is among
      those the floor kept. */
  lemma ApprovedSurvives(gated: seq<Gated>, reply: Option<Reply>, noReply: string, orders: Settle.Orders,
                         planCashUsd: real, floorUsd: Option<real>, s: Settle.Settlement, k: nat)
    requires k < |gated| && gated[k].index in orders && Passes(gated[k], reply, noReply) && gated[k].index !in s.dropped
    requires Settle.Settled(orders, {}, Sort(IntLe, Settle.InPlan(orders, Passing(gated, reply, noReply))),
                            planCashUsd, floorUsd, s)
    ensures gated[k].index in s.kept
  {
    PassingHolds(gated, reply, noReply, k);
    SortHolds(IntLe, Settle.InPlan(orders, Passing(gated, reply, noReply)));
    NotDroppedIsKept(orders, Sort(IntLe, Settle.InPlan(orders, Passing(gated, reply, noReply))),
                     planCashUsd, floorUsd, s, gated[k].index);
  }

  /** How many of the loose buys a settlement keeps. */
  lemma KeptOf(orders: Settle.Orders, ids: seq<int>, cashUsd: real, floorUsd: Option<real>, s: Settle.Settlement)
    returns (n: nat)
    requires Settle.Settled(orders, {}, ids, cashUsd, floorUsd, s)
    ensures var loose := Settle.Loose(orders, {}, ids);
            && n <= |loose| && Settle.Loose(orders, {}, s.kept) == loose[..n] && s.dropped == Settle.Reverse(loose[n..])
            && Settle.Fixed(orders, {}, s.kept) == Settle.Fixed(orders, {}, ids)
  {
    var loose := Settle.Loose(orders, {}, ids);
    n :| Settle.Longest(orders, {}, ids, cashUsd, floorUsd, n)
         && Settle.Loose(orders, {}, s.kept) == loose[..n] && s.dropped == Settle.Reverse(loose[n..]);
  }

  /** The floor keeps what it does not drop. */
  lemma NotDroppedIsKept(orders: Settle.Orders, ids: seq<int>, cashUsd: real, floorUsd: Option<real>,
                         s: Settle.Settlement, i: int)
    requires Settle.Settled(orders, {}, ids, cashUsd, floorUsd, s) && i in ids && i !in s.dropped
    ensures i in s.kept
  {
    var n := KeptOf(orders, ids, cashUsd, floorUsd, s);
    KeptFrom(orders, ids, s.kept, s.dropped, n, i);
  }

  lemma KeptFrom(orders: Settle.Orders, ids: seq<int>, kept: seq<int>, dropped: seq<int>, n: nat, i: int)
    requires n <= |Settle.Loose(orders, {}, ids)| && i in ids && i !in dropped
    requires Settle.Loose(orders, {}, kept) == Settle.Loose(orders, {}, ids)[..n]
    requires dropped == Settle.Reverse(Settle.Loose(orders, {}, ids)[n..])
    requires Settle.Fixed(orders, {}, kept) == Settle.Fixed(orders, {}, ids)
    ensures i in kept
  {
    var loose := Settle.Loose(orders, {}, ids);
    Settle.PartsHold(orders, {}, ids);
    Settle.PartsHold(orders, {}, kept);
    ReverseHolds(loose[n..]);
    assert loose == loose[..n] + loose[n..];
    assert i in loose || i in Settle.Fixed(orders, {}, ids);
  }

  lemma {:induction false} ReverseHolds(s: seq<int>)
    ensures forall x :: x in Settle.Reverse(s) <==> x in s
  {
    if s != [] {
      ReverseHolds(s[..|s| - 1]);
      assert s == s[..|s| - 1] + [s[|s| - 1]];
    }
  }

  lemma {:induction false} PassingHolds(gated: seq<Gated>, reply: Option<Reply>, noReply: string, k: nat)
    requires k < |gated| && Passes(gated[k], reply, noReply)
    ensures gated[k].index in Passing(gated, reply, noReply)
    decreases |gated|
  {
    if k < |gated| - 1 {
      PassingHolds(gated[..|gated| - 1], reply, noReply, k);
    }
  }
}
