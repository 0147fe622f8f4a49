/** What is read of a risk reply, line by line, and what is held against an order. */
module Replies {
  import opened Wrappers
  import opened Votes

  // ----- which plan ----------------------------------------------------------------------------

  /** The reply names the plan of its first RISK line. */
  lemma {:induction false} HeadIsTheFirst(lines: seq<Line>)
    ensures Head(lines).None? <==> forall k :: 0 <= k < |lines| ==> lines[k].plan.None?
    ensures Head(lines).Some? ==>
              exists k :: 0 <= k < |lines| && lines[k].plan == Head(lines)
                          && forall j :: 0 <= j < k ==> lines[j].plan.None?
  {
    if lines != [] && lines[0].plan.None? {
      var rest := lines[1..];
      HeadIsTheFirst(rest);
      if Head(rest).Some? {
        var k :| 0 <= k < |rest| && rest[k].plan == Head(rest) && forall j :: 0 <= j < k ==> rest[j].plan.None?;
        assert lines[k + 1].plan == Head(lines);
        forall j | 0 <= j < k + 1 ensures lines[j].plan.None? {
          assert j > 0 ==> rest[j - 1].plan.None?;
        }
      } else {
        forall k | 0 <= k < |lines| ensures lines[k].plan.None? {
          assert k > 0 ==> rest[k - 1].plan.None?;
        }
      }
    }
  }

  // ----- the reasons given ---------------------------------------------------------------------

  /** A line that ends the reason before it: a vote on an order, or the first overall verdict. */
  predicate Breaks(line: Line, overallSeen: bool) {
    line.kind.OrderLine? || (line.kind.OverallLine? && !overallSeen)
  }

  /** The lines with text from k up to the next that breaks. */
  function Further(lines: seq<Line>, k: nat, overallSeen: bool): seq<string>
    requires k <= |lines|
    decreases |lines| - k
  {
    if k == |lines| || Breaks(lines[k], overallSeen) then []
    else (if lines[k].text != "" then [lines[k].text] else []) + Further(lines, k + 1, overallSeen)
  }

  predicate OverallIn(lines: seq<Line>) { exists k :: 0 <= k < |lines| && lines[k].kind.OverallLine? }

  /** The first vote that counts for an order stands at k. */
  ghost predicate FirstCounts(lines: seq<Line>, symbols: Symbols, i: int, k: nat) {
    k < |lines| && CountsFor(lines[k], symbols, i) && forall j :: 0 <= j < k ==> !CountsFor(lines[j], symbols, i)
  }

  ghost predicate FirstOverall(lines: seq<Line>, k: nat) {
    k < |lines| && lines[k].kind.OverallLine? && forall j :: 0 <= j < k ==> !lines[j].kind.OverallLine?
  }

  /** Nothing from k on breaks. */
  ghost predicate Unbroken(lines: seq<Line>, k: nat, overallSeen: bool) {
    forall j :: k <= j < |lines| ==> !Breaks(lines[j], overallSeen)
  }

  lemma {:induction false} FurtherGrows(lines: seq<Line>, k: nat, overallSeen: bool, line: Line)
    requires k <= |lines|
    ensures Further(lines + [line], k, overallSeen)
            == Further(lines, k, overallSeen)
               + if Unbroken(lines, k, overallSeen) && !Breaks(line, overallSeen) && line.text != ""
                 then [line.text] else []
    decreases |lines| - k
  {
    if k == |lines| {
      assert (lines + [line])[k] == line;
      assert Further(lines + [line], k + 1, overallSeen) == [];
    } else {
      assert (lines + [line])[k] == lines[k];
      if !Breaks(lines[k], overallSeen) {
        FurtherGrows(lines, k + 1, overallSeen, line);
      }
    }
  }

  lemma SameFirsts(lines: seq<Line>, line: Line, symbols: Symbols, i: int, k: nat)
    ensures k < |lines| ==> (FirstCounts(lines + [line], symbols, i, k) <==> FirstCounts(lines, symbols, i, k))
    ensures k < |lines| ==> (FirstOverall(lines + [line], k) <==> FirstOverall(lines, k))
    ensures k <= |lines| ==> (lines + [line])[..k] == lines[..k]
    ensures FirstCounts(lines + [line], symbols, i, |lines|) <==>
              CountsFor(line, symbols, i) && forall j :: 0 <= j < |lines| ==> !CountsFor(lines[j], symbols, i)
    ensures FirstOverall(lines + [line], |lines|) <==> line.kind.OverallLine? && !OverallIn(lines)
  {
    var more := lines + [line];
    assert forall j :: 0 <= j < |lines| ==> more[j] == lines[j];
    assert more[|lines|] == line;
  }

  lemma OverallGrows(lines: seq<Line>, line: Line)
    ensures OverallIn(lines + [line]) <==> OverallIn(lines) || line.kind.OverallLine?
    ensures lines[..|lines|] == lines
  {
    var more := lines + [line];
    assert forall j :: 0 <= j < |lines| ==> more[j] == lines[j];
    assert more[|lines|] == line;
  }

  lemma UnbrokenGrows(lines: seq<Line>, line: Line, k: nat, seen: bool)
    requires k <= |lines|
    ensures Unbroken(lines + [line], k, seen) <==> Unbroken(lines, k, seen) && !Breaks(line, seen)
  {
    var more := lines + [line];
    assert forall j :: 0 <= j < |lines| ==> more[j] == lines[j];
    assert more[|lines|] == line;
  }

  /** Until the first that counts, none does. */
  lemma {:induction false} SomeFirst(lines: seq<Line>, symbols: Symbols, i: int)
    ensures (exists k :: FirstCounts(lines, symbols, i, k)) <==>
            exists k :: 0 <= k < |lines| && CountsFor(lines[k], symbols, i)
  {
    if lines != [] {
      var n := |lines| - 1;
      SomeFirst(lines[..n], symbols, i);
      assert lines == lines[..n] + [lines[n]];
      if k :| FirstCounts(lines[..n], symbols, i, k) {
        SameFirsts(lines[..n], lines[n], symbols, i, k);
        assert FirstCounts(lines, symbols, i, k);
      } else if CountsFor(lines[n], symbols, i) {
        forall j | 0 <= j < n ensures !CountsFor(lines[j], symbols, i) {
          assert lines[..n][j] == lines[j];
        }
        assert FirstCounts(lines, symbols, i, n);
      } else {
        forall j | 0 <= j < |lines| ensures !CountsFor(lines[j], symbols, i) {
          assert j < n ==> lines[..n][j] == lines[j];
        }
      }
    }
  }

  /** The vote that is read for an order, its reason, and whether the next line may still add to it. */
  ghost predicate VoteAt(lines: seq<Line>, symbols: Symbols, r: Reading, i: int, k: nat)
    requires k < |lines|
  {
    FirstCounts(lines, symbols, i, k) && lines[k].kind.OrderLine? ==>
      && i in r.votes && r.votes[i].0 == lines[k].kind.vote
      && r.votes[i].1 == Words(lines[k].kind.rest) + Further(lines, k + 1, OverallIn(lines[..k]))
      && (r.current == OfOrder(i) <==> Unbroken(lines, k + 1, OverallIn(lines[..k])))
  }

  ghost predicate VoteRead(lines: seq<Line>, symbols: Symbols, r: Reading, i: int) {
    && (i in r.votes <==> exists k :: 0 <= k < |lines| && CountsFor(lines[k], symbols, i))
    && (forall k: nat :: k < |lines| ==> VoteAt(lines, symbols, r, i, k))
    && (r.current == OfOrder(i) ==> i in r.votes)
  }

  ghost predicate OverallAt(lines: seq<Line>, r: Reading, k: nat)
    requires k < |lines|
  {
    FirstOverall(lines, k) && lines[k].kind.OverallLine? ==>
      && r.overall.Some? && r.overall.value.0 == lines[k].kind.verdict
      && r.overall.value.1 == Words(lines[k].kind.why) + Further(lines, k + 1, true)
      && (r.current == OfOverall <==> Unbroken(lines, k + 1, true))
  }

  ghost predicate OverallRead(lines: seq<Line>, r: Reading) {
    && (r.overall.Some? <==> OverallIn(lines))
    && (forall k: nat :: k < |lines| ==> OverallAt(lines, r, k))
    && (r.current == OfOverall ==> r.overall.Some?)
  }

  lemma StepOverall(lines: seq<Line>, line: Line, symbols: Symbols, r: Reading)
    requires OverallRead(lines, r)
    ensures OverallRead(lines + [line], Read(r, line, symbols))
  {
    var more, next := lines + [line], Read(r, line, symbols);
    OverallGrows(lines, line);
    forall k: nat | k < |more| ensures OverallAt(more, next, k) {
      SameFirsts(lines, line, symbols, 0, k);
      if k < |lines| {
        assert more[k] == lines[k] && OverallAt(lines, r, k);
        FurtherGrows(lines, k + 1, true, line);
        UnbrokenGrows(lines, line, k + 1, true);
        if FirstOverall(lines, k) {
          assert lines[k].kind.OverallLine?;
          assert Words(lines[k].kind.why) + Further(more, k + 1, true)
              == r.overall.value.1 + (if Unbroken(lines, k + 1, true) && !Breaks(line, true) && line.text != ""
                                      then [line.text] else []);
        }
      } else {
        SameFirsts(lines, line, symbols, 0, |lines|);
        assert Further(more, k + 1, true) == [];
      }
    }
  }

  lemma StepVote(lines: seq<Line>, line: Line, symbols: Symbols, r: Reading, i: int)
    requires VoteRead(lines, symbols, r, i) && OverallRead(lines, r)
    ensures VoteRead(lines + [line], symbols, Read(r, line, symbols), i)
  {
    var more, next := lines + [line], Read(r, line, symbols);
    assert forall j :: 0 <= j < |lines| ==> more[j] == lines[j];
    assert more[|lines|] == line;
    forall k: nat | k < |more| ensures VoteAt(more, symbols, next, i, k) {
      if k < |lines| {
        assert VoteAt(lines, symbols, r, i, k);
        StepVoteAt(lines, line, symbols, r, i, k);
      } else {
        NewVoteAt(lines, line, symbols, r, i);
      }
    }
  }

  lemma StepVoteAt(lines: seq<Line>, line: Line, symbols: Symbols, r: Reading, i: int, k: nat)
    requires k < |lines| && VoteAt(lines, symbols, r, i, k) && OverallRead(lines, r)
    requires i in r.votes <==> exists j :: 0 <= j < |lines| && CountsFor(lines[j], symbols, i)
    ensures VoteAt(lines + [line], symbols, Read(r, line, symbols), i, k)
  {
    var more, next, seen := lines + [line], Read(r, line, symbols), OverallIn(lines[..k]);
    SameFirsts(lines, line, symbols, i, k);
    FurtherGrows(lines, k + 1, seen, line);
    UnbrokenGrows(lines, line, k + 1, seen);
    OverallGrows(lines, line);
    if FirstCounts(lines, symbols, i, k) {
      var added := if Unbroken(lines, k + 1, seen) && !Breaks(line, seen) && line.text != "" then [line.text] else [];
      assert Words(lines[k].kind.rest) + Further(more, k + 1, seen) == r.votes[i].1 + added;
      SeenSince(lines, k, seen);
    }
  }

  /** An overall verdict since k has broken what k began, unless one had been seen before. */
  lemma SeenSince(lines: seq<Line>, k: nat, seen: bool)
    requires k < |lines| && seen == OverallIn(lines[..k]) && !lines[k].kind.OverallLine?
    ensures Unbroken(lines, k + 1, seen) ==> (seen <==> OverallIn(lines))
  {
    assert forall j :: 0 <= j < k ==> lines[..k][j] == lines[j];
    if seen {
      var j :| 0 <= j < k && lines[..k][j].kind.OverallLine?;
      assert lines[j].kind.OverallLine?;
    } else if OverallIn(lines) {
      var j :| 0 <= j < |lines| && lines[j].kind.OverallLine?;
      assert j > k && Breaks(lines[j], seen);
    }
  }

  lemma NewVoteAt(lines: seq<Line>, line: Line, symbols: Symbols, r: Reading, i: int)
    requires VoteRead(lines, symbols, r, i)
    ensures VoteAt(lines + [line], symbols, Read(r, line, symbols), i, |lines|)
  {
    var more := lines + [line];
    SameFirsts(lines, line, symbols, i, |lines|);
    assert more[|lines|] == line && Further(more, |lines| + 1, OverallIn(more[..|lines|])) == [];
    if FirstCounts(more, symbols, i, |lines|) {
      assert i !in r.votes;
      assert Words(line.kind.rest) + [] == Words(line.kind.rest);
    }
  }

  lemma {:induction false} ReadsEveryLine(lines: seq<Line>, symbols: Symbols, i: int)
    ensures VoteRead(lines, symbols, ReadAll(lines, symbols), i) && OverallRead(lines, ReadAll(lines, symbols))
  {
    if lines != [] {
      var n := |lines| - 1;
      ReadsEveryLine(lines[..n], symbols, i);
      StepVote(lines[..n], lines[n], symbols, ReadAll(lines[..n], symbols), i);
      StepOverall(lines[..n], lines[n], symbols, ReadAll(lines[..n], symbols));
      assert lines == lines[..n] + [lines[n]];
    }
  }

  /** An order's vote is that of its first line that counts, with the rest of that line and the lines with text that
      follow it, up to the next vote or the first overall verdict, as its reason. */
  lemma VoteIsTheFirstLine(lines: seq<Line>, symbols: Symbols, i: int, k: nat)
    requires FirstCounts(lines, symbols, i, k)
    ensures var r := ReadAll(lines, symbols);
            && i in r.votes && r.votes[i].0 == lines[k].kind.vote
            && r.votes[i].1 == (if lines[k].kind.rest == "" then [] else [lines[k].kind.rest])
                               + Further(lines, k + 1, OverallIn(lines[..k]))
  {
    ReadsEveryLine(lines, symbols, i);
    assert VoteAt(lines, symbols, ReadAll(lines, symbols), i, k);
  }

  /** And so for the overall verdict; there is one exactly when a line gives one. */
  lemma OverallIsTheFirstLine(lines: seq<Line>, symbols: Symbols)
    ensures ReadAll(lines, symbols).overall.Some? <==> OverallIn(lines)
    ensures forall k: nat :: k < |lines| && FirstOverall(lines, k) && lines[k].kind.OverallLine? ==>
              ReadAll(lines, symbols).overall
              == Some((lines[k].kind.verdict,
                       (if lines[k].kind.why == "" then [] else [lines[k].kind.why]) + Further(lines, k + 1, true)))
  {
    ReadsEveryLine(lines, symbols, 0);
    forall k: nat | k < |lines| && FirstOverall(lines, k) && lines[k].kind.OverallLine?
      ensures ReadAll(lines, symbols).overall
              == Some((lines[k].kind.verdict,
                       (if lines[k].kind.why == "" then [] else [lines[k].kind.why]) + Further(lines, k + 1, true)))
    {
      assert OverallAt(lines, ReadAll(lines, symbols), k);
    }
  }

  // ----- what is held against an order ---------------------------------------------------------

  /** Besides what its gates hold against it, an order has against it: that there was no reply; that there was no
      clear vote on it; that the vote is not to approve; that the overall verdict is not. Each once, in that order. */
  lemma HeldAgainst(g: Gated, reply: Option<Reply>, noReply: string)
    ensures g.blockedBy <= Against(g, reply, noReply)
    ensures var more := Against(g, reply, noReply)[|g.blockedBy|..];
            var voted := reply.Some? && g.index in reply.value.orders;
            && (reply.Some? ==>
                  && ("risk-no-vote" in more <==> !voted)
                  && ("risk" in more <==> voted && reply.value.orders[g.index].0 == Veto)
                  && ("risk-overall" in more <==>
                        voted && reply.value.overall.Some? && reply.value.overall.value.0 == Veto)
                  && (forall k :: 0 <= k < |more| ==> more[k] in {"risk", "risk-overall", "risk-no-vote"})
                  && |more| <= 2 && (|more| == 2 ==> more == ["risk", "risk-overall"]))
            && (reply.None? ==> more == if noReply in g.blockedBy then [] else [noReply])
  {
    if reply.Some? && g.index in reply.value.orders {
      var risk := if reply.value.orders[g.index].0 != Approve then [RULE_RISK] else [];
      var overall :=
        if reply.value.overall.Some? && reply.value.overall.value.0 != Approve then [RULE_OVERALL] else [];
      assert (g.blockedBy + risk + overall)[|g.blockedBy|..] == risk + overall;
      VetoOrApprove(reply.value.orders[g.index].0);
      assert RULE_RISK == "risk" && RULE_OVERALL == "risk-overall";
      Different();
    }
  }

  lemma VetoOrApprove(v: Vote)
    ensures v != Approve <==> v == Veto
  {
  }

  lemma Different()
    ensures "risk" != "risk-overall" && "risk" != "risk-no-vote" && "risk-overall" != "risk-no-vote"
  {
    assert |"risk"| == 4 && |"risk-overall"| == 12 && |"risk-no-vote"| == 12;
    assert "risk-overall"[5] == 'o' && "risk-no-vote"[5] == 'n';
  }
}
