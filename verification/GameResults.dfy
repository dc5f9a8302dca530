/** From the result reports of the clients to the ladder (src/bnetd/anongame.cpp:1124-1169, 1192-1227,
    1290-1340; src/bnetd/account_wrap.cpp:2259-2315). */
module GameResults {
  import opened Common
  import opened QueueTypes

  const W3_GAMERESULT_LOSS := 3
  const W3_GAMERESULT_WIN := 4

  /** One line of a client's report: the player number, counted from 1, and the result claimed for it. */
  datatype Report = Report(number: int, result: int)

  /** A client's report, None when it sent none. */
  type Reports = seq<Option<seq<Report>>>

  /** Report lines that say `result` of player p, among the first j lines. */
  function Lines(rs: seq<Report>, j: nat, p: nat, result: int): nat
    requires j <= |rs|
  {
    if j == 0 then 0
    else Lines(rs, j - 1, p, result) + if rs[j - 1].number - 1 == p && rs[j - 1].result == result then 1 else 0
  }

  /** The same over the reports of the first k players. */
  function Votes(reports: Reports, k: nat, p: nat, result: int): nat
    requires k <= |reports|
  {
    if k == 0 then 0
    else Votes(reports, k - 1, p, result) +
         match reports[k - 1] { case None => 0 case Some(rs) => Lines(rs, |rs|, p, result) }
  }

  /** A report line that says `result` of player p, who is number p + 1. */
  predicate Says(r: Report, p: nat, result: int) {
    r.number == p + 1 && r.result == result
  }

  ghost predicate LineSays(rs: seq<Report>, p: nat, result: int) {
    exists j :: 0 <= j < |rs| && Says(rs[j], p, result)
  }

  ghost predicate SomeLineSays(reports: Reports, k: nat, p: nat, result: int)
    requires k <= |reports|
  {
    exists i :: 0 <= i < k && reports[i].Some? && LineSays(reports[i].value, p, result)
  }

  lemma OneMore(before: set<int>, all: set<int>, n: int, counts: bool)
    requires n !in before && forall i: int :: i in all <==> i in before || (counts && i == n)
    ensures |all| == |before| + if counts then 1 else 0
  {
    var more := if counts then before + {n} else before;
    forall i: int
      ensures i in all <==> i in more
    {
    }
    assert all == more;
  }

  lemma {:induction false} LinesAreSet(rs: seq<Report>, n: nat, p: nat, result: int)
    requires n <= |rs|
    ensures Lines(rs, n, p, result) == |set j | 0 <= j < n && Says(rs[j], p, result)|
  {
    if n > 0 {
      LinesAreSet(rs, n - 1, p, result);
      var before := set j | 0 <= j < n - 1 && Says(rs[j], p, result);
      var all := set j | 0 <= j < n && Says(rs[j], p, result);
      OneMore(before, all, n - 1, Says(rs[n - 1], p, result));
    }
  }

  lemma LineInReport(rs: seq<Report>, p: nat, result: int)
    ensures Lines(rs, |rs|, p, result) > 0 <==> LineSays(rs, p, result)
  {
    LinesAreSet(rs, |rs|, p, result);
    var says := set j | 0 <= j < |rs| && Says(rs[j], p, result);
    if j :| 0 <= j < |rs| && Says(rs[j], p, result) {
      assert j in says;
    }
  }

  lemma {:induction false} VotedIff(reports: Reports, k: nat, p: nat, result: int)
    requires k <= |reports|
    ensures Votes(reports, k, p, result) > 0 <==> SomeLineSays(reports, k, p, result)
  {
    if k > 0 {
      VotedIff(reports, k - 1, p, result);
      if reports[k - 1].Some? {
        LineInReport(reports[k - 1].value, p, result);
      }
    }
  }

  /** When somebody reports that player w has won and nobody denies it, and nobody reports a win of anybody else, exactly w
      wins. */
  lemma UnanimousWinner(reports: Reports, total: nat, result: seq<int>, w: nat)
    requires total <= |reports| && total <= |result| && w < total && Decided(reports, total, result)
    requires SomeLineSays(reports, total, w, W3_GAMERESULT_WIN) && !SomeLineSays(reports, total, w, W3_GAMERESULT_LOSS)
    requires forall p: nat :: p < total && p != w ==> !SomeLineSays(reports, total, p, W3_GAMERESULT_WIN)
    ensures forall p: nat :: p < total ==> result[p] == if p == w then W3_GAMERESULT_WIN else W3_GAMERESULT_LOSS
  {
    forall p: nat | p < total
      ensures result[p] == if p == w then W3_GAMERESULT_WIN else W3_GAMERESULT_LOSS
    {
      VotedIff(reports, total, p, W3_GAMERESULT_WIN);
      VotedIff(reports, total, p, W3_GAMERESULT_LOSS);
    }
  }

  /** The votes are the sum over all clients of the lines that say so. */
  lemma VotesAdd(reports: Reports, k: nat, p: nat, result: int)
    requires k < |reports|
    ensures Votes(reports, k + 1, p, result) - Votes(reports, k, p, result)
         == match reports[k] case None => 0 case Some(rs) => |set j | 0 <= j < |rs| && Says(rs[j], p, result)|
  {
    if reports[k].Some? {
      LinesAreSet(reports[k].value, |reports[k].value|, p, result);
    }
  }

  /** The code indexes its counters with the reported number unchecked; it relies on 1 to 12. */
  ghost predicate NumbersInRange(reports: Reports) {
    forall k, j :: 0 <= k < |reports| && reports[k].Some? && 0 <= j < |reports[k].value| ==>
      1 <= reports[k].value[j].number <= MAX_GAMECOUNT
  }

  ghost predicate Decided(reports: Reports, total: nat, result: seq<int>)
    requires total <= |reports| && total <= |result|
  {
    forall p :: 0 <= p < total ==>
      result[p] == if Votes(reports, total, p, W3_GAMERESULT_WIN) > Votes(reports, total, p, W3_GAMERESULT_LOSS)
                   then W3_GAMERESULT_WIN else W3_GAMERESULT_LOSS
  }

  method CountReport(rs: seq<Report>, wins: array<nat>, losses: array<nat>)
    requires wins != losses && wins.Length == losses.Length == MAX_GAMECOUNT
    requires forall j :: 0 <= j < |rs| ==> 1 <= rs[j].number <= MAX_GAMECOUNT
    modifies wins, losses
    ensures forall p :: 0 <= p < MAX_GAMECOUNT ==>
              wins[p] == old(wins[p]) + Lines(rs, |rs|, p, W3_GAMERESULT_WIN) &&
              losses[p] == old(losses[p]) + Lines(rs, |rs|, p, W3_GAMERESULT_LOSS)
  {
    var j := 0;
    while j < |rs|
      invariant 0 <= j <= |rs|
      invariant forall p :: 0 <= p < MAX_GAMECOUNT ==>
                  wins[p] == old(wins[p]) + Lines(rs, j, p, W3_GAMERESULT_WIN) &&
                  losses[p] == old(losses[p]) + Lines(rs, j, p, W3_GAMERESULT_LOSS)
    {
      var number := rs[j].number - 1;
      if rs[j].result == W3_GAMERESULT_WIN {
        wins[number] := wins[number] + 1;
      }
      if rs[j].result == W3_GAMERESULT_LOSS {
        losses[number] := losses[number] + 1;
      }
      j := j + 1;
    }
  }

  /** anongame_evaluate_results: a player has won exactly when more reports say so than deny it; whatever
      stood in result[] before, also a disconnect, is replaced by WIN or LOSS. */
  method EvaluateResults(reports: Reports, total: nat, result: array<int>)
    requires total <= MAX_GAMECOUNT == |reports| == result.Length && NumbersInRange(reports)
    modifies result
    ensures Decided(reports, total, result[..])
    ensures result[total..] == old(result[total..])
  {
    var wins := new nat[MAX_GAMECOUNT](_ => 0);
    var losses := new nat[MAX_GAMECOUNT](_ => 0);
    var i := 0;
    while i < total
      invariant 0 <= i <= total && fresh(wins) && fresh(losses) && wins != losses
      invariant forall p :: 0 <= p < MAX_GAMECOUNT ==>
                  wins[p] == Votes(reports, i, p, W3_GAMERESULT_WIN) &&
                  losses[p] == Votes(reports, i, p, W3_GAMERESULT_LOSS)
      invariant result[..] == old(result[..])
    {
      if reports[i].Some? {
        CountReport(reports[i].value, wins, losses);
      }
      i := i + 1;
    }
    i := 0;
    while i < total
      invariant 0 <= i <= total && wins != losses && wins.Length == losses.Length == MAX_GAMECOUNT
      invariant forall p :: 0 <= p < MAX_GAMECOUNT ==>
                  wins[p] == Votes(reports, total, p, W3_GAMERESULT_WIN) &&
                  losses[p] == Votes(reports, total, p, W3_GAMERESULT_LOSS)
      invariant forall p :: 0 <= p < i ==>
                  result[p] == if wins[p] > losses[p] then W3_GAMERESULT_WIN else W3_GAMERESULT_LOSS
      invariant result[total..] == old(result[total..])
    {
      if wins[i] > losses[i] {
        if result[i] != W3_GAMERESULT_WIN {
          result[i] := W3_GAMERESULT_WIN;
        }
      } else {
        if result[i] != W3_GAMERESULT_LOSS {
          result[i] := W3_GAMERESULT_LOSS;
        }
      }
      i := i + 1;
    }
  }

  // ---------- recording ----------

  type Account = int
  datatype LadderId = Solo | Team | Ffa
  type Tally = map<(Account, LadderId), nat>

  /** The ladder a game type counts for; the other types do not reach account_set_saveladderstats. */
  function LadderOf(queue: nat): Option<LadderId> {
    match queue
    case 0 => Some(Solo)
    case 1 | 2 | 3 | 10 | 11 | 12 | 13 | 14 | 15 | 16 => Some(Team)
    case 4 => Some(Ffa)
    case _ => None
  }

  function Score(t: Tally, a: Account, id: LadderId): nat {
    if (a, id) in t then t[(a, id)] else 0
  }

  /** How many of the first n slots give account `a` the result `r`. */
  function Slots(acc: seq<Account>, result: seq<int>, n: nat, a: Account, r: int): nat
    requires n <= |acc| && n <= |result|
  {
    if n == 0 then 0 else Slots(acc, result, n - 1, a, r) + if acc[n - 1] == a && result[n - 1] == r then 1 else 0
  }

  /** How many of the first n results are `r`. */
  function Total(result: seq<int>, n: nat, r: int): nat
    requires n <= |result|
  {
    if n == 0 then 0 else Total(result, n - 1, r) + if result[n - 1] == r then 1 else 0
  }

  lemma {:induction false} TotalIsSet(result: seq<int>, n: nat, r: int)
    requires n <= |result|
    ensures Total(result, n, r) == |set i | 0 <= i < n && result[i] == r|
  {
    if n > 0 {
      TotalIsSet(result, n - 1, r);
      var before := set i | 0 <= i < n - 1 && result[i] == r;
      var all := set i | 0 <= i < n && result[i] == r;
      OneMore(before, all, n - 1, result[n - 1] == r);
    }
  }

  lemma {:induction false} SlotsAreSet(acc: seq<Account>, result: seq<int>, n: nat, a: Account, r: int)
    requires n <= |acc| && n <= |result|
    ensures Slots(acc, result, n, a, r) == |set i | 0 <= i < n && acc[i] == a && result[i] == r|
  {
    if n > 0 {
      SlotsAreSet(acc, result, n - 1, a, r);
      var before := set i | 0 <= i < n - 1 && acc[i] == a && result[i] == r;
      var all := set i | 0 <= i < n && acc[i] == a && result[i] == r;
      OneMore(before, all, n - 1, acc[n - 1] == a && result[n - 1] == r);
    }
  }

  /** 1v1 counts on the solo ladder and small free-for-all on its own; every other game between teams that were not arranged
      counts on the team ladder, except team free-for-all and the tournament; nothing else counts. */
  lemma LadderOfGame(queue: nat, t: Tournament)
    requires queue < ANONGAME_TYPES
    ensures LadderOf(queue) == Some(Solo) <==> queue == ONE_ON_ONE
    ensures LadderOf(queue) == Some(Ffa) <==> queue == SMALL_FFA
    ensures LadderOf(queue) == Some(Team) <==>
            TotalTeams(queue) > 0 && queue != TEAM_FFA && queue != TY && !Arranged(queue, t)
  {
  }

  ghost predicate AllDecided(result: seq<int>, n: nat)
    requires n <= |result|
  {
    forall p :: 0 <= p < n ==> result[p] == W3_GAMERESULT_WIN || result[p] == W3_GAMERESULT_LOSS
  }

  /** The sanity checks on the counted results: is the game recorded? */
  predicate Plausible(queue: nat, wins: nat, losses: nat, discs: nat) {
    && (if queue == SMALL_FFA then wins == 1
        else if queue == TEAM_FFA then discs > 0 || wins == 2
        else discs > 0 || wins <= losses)
    && wins > 0
  }

  class Ladder {
    var wins: Tally
    var losses: Tally

    constructor ()
      ensures wins == map[] && losses == map[]
    {
      wins, losses := map[], map[];
    }

    /** account_set_saveladderstats, as far as it counts wins and losses. */
    method Save(a: Account, id: LadderId, result: int)
      modifies this
      ensures wins == if result == W3_GAMERESULT_WIN then old(wins)[(a, id) := old(Score(wins, a, id)) + 1] else old(wins)
      ensures losses == if result == W3_GAMERESULT_LOSS then old(losses)[(a, id) := old(Score(losses, a, id)) + 1] else old(losses)
    {
      if result == W3_GAMERESULT_WIN {
        wins := wins[(a, id) := Score(wins, a, id) + 1];
      }
      if result == W3_GAMERESULT_LOSS {
        losses := losses[(a, id) := Score(losses, a, id) + 1];
      }
    }

    /** The recording loop; a result that is still -1 counts as a loss. */
    method SaveAll(acc: seq<Account>, result: seq<int>, id: LadderId)
      requires |acc| == |result|
      modifies this
      ensures forall a, x ::
                Score(wins, a, x) == old(Score(wins, a, x)) +
                  (if x == id then Slots(acc, result, |acc|, a, W3_GAMERESULT_WIN) else 0)
      ensures forall a, x ::
                Score(losses, a, x) == old(Score(losses, a, x)) +
                  (if x == id then Slots(acc, result, |acc|, a, W3_GAMERESULT_LOSS) + Slots(acc, result, |acc|, a, -1) else 0)
    {
      assert forall a, r :: Slots(acc, result, 0, a, r) == 0;
      var i := 0;
      while i < |acc|
        invariant 0 <= i <= |acc|
        invariant forall a, x ::
                    Score(wins, a, x) == old(Score(wins, a, x)) +
                      (if x == id then Slots(acc, result, i, a, W3_GAMERESULT_WIN) else 0)
        invariant forall a, x ::
                    Score(losses, a, x) == old(Score(losses, a, x)) +
                      (if x == id then Slots(acc, result, i, a, W3_GAMERESULT_LOSS) + Slots(acc, result, i, a, -1) else 0)
      {
        SaveOne(acc[i], id, result[i]);
        i := i + 1;
      }
    }

    /** The body of the loop, as its effect on every score. */
    method SaveOne(acc: Account, id: LadderId, result: int)
      modifies this
      ensures forall a, x ::
                Score(wins, a, x) == old(Score(wins, a, x)) +
                  (if x == id && a == acc && result == W3_GAMERESULT_WIN then 1 else 0)
      ensures forall a, x ::
                Score(losses, a, x) == old(Score(losses, a, x)) +
                  (if x == id && a == acc && (result == W3_GAMERESULT_LOSS || result == -1) then 1 else 0)
    {
      Save(acc, id, if result == -1 then W3_GAMERESULT_LOSS else result);
    }

    /** anongame_stats from the evaluated results on: count, check, and if plausible record each player. */
    method Record(queue: nat, acc: seq<Account>, result: seq<int>) returns (recorded: bool)
      requires |acc| == |result|
      modifies this
      ensures recorded == (var w, l := Total(result, |result|, W3_GAMERESULT_WIN), Total(result, |result|, W3_GAMERESULT_LOSS);
                           w + l <= |result| && Plausible(queue, w, l, |result| - w - l))
      ensures forall a, id ::
                Score(wins, a, id) == old(Score(wins, a, id)) +
                  (if recorded && LadderOf(queue) == Some(id) then Slots(acc, result, |acc|, a, W3_GAMERESULT_WIN) else 0)
      ensures forall a, id ::
                Score(losses, a, id) == old(Score(losses, a, id)) +
                  (if recorded && LadderOf(queue) == Some(id)
                   then Slots(acc, result, |acc|, a, W3_GAMERESULT_LOSS) + Slots(acc, result, |acc|, a, -1) else 0)
    {
      var w, l, d := CountResults(result);
      if !Plausible(queue, w, l, d) {
        return false;
      }
      recorded := true;
      if LadderOf(queue).None? {
        return;
      }
      SaveAll(acc, result, LadderOf(queue).value);
    }
  }

  method CountResults(result: seq<int>) returns (wins: nat, losses: nat, discs: nat)
    ensures wins == Total(result, |result|, W3_GAMERESULT_WIN)
    ensures losses == Total(result, |result|, W3_GAMERESULT_LOSS)
    ensures wins + losses + discs == |result|
  {
    wins, losses, discs := 0, 0, 0;
    var i := 0;
    while i < |result|
      invariant 0 <= i <= |result| && wins + losses + discs == i
      invariant wins == Total(result, i, W3_GAMERESULT_WIN) && losses == Total(result, i, W3_GAMERESULT_LOSS)
    {
      if result[i] == W3_GAMERESULT_WIN {
        wins := wins + 1;
      } else if result[i] == W3_GAMERESULT_LOSS {
        losses := losses + 1;
      } else {
        discs := discs + 1;
      }
      i := i + 1;
    }
  }

  // ---------- what a recorded game adds ----------

  ghost predicate Distinct(acc: seq<Account>) {
    forall i, j :: 0 <= i < j < |acc| ==> acc[i] != acc[j]
  }

  lemma {:induction false} SlotsOfPlayer(acc: seq<Account>, result: seq<int>, n: nat, i: nat, r: int)
    requires n <= |acc| == |result| && i < |acc| && Distinct(acc)
    ensures Slots(acc, result, n, acc[i], r) == if i < n && result[i] == r then 1 else 0
  {
    if n == 0 {
    } else {
      SlotsOfPlayer(acc, result, n - 1, i, r);
    }
  }

  lemma {:induction false} DecidedTotals(result: seq<int>, n: nat)
    requires n <= |result| && AllDecided(result, n)
    ensures Total(result, n, W3_GAMERESULT_WIN) + Total(result, n, W3_GAMERESULT_LOSS) == n
  {
    if n == 0 {
    } else {
      DecidedTotals(result, n - 1);
    }
  }

  /** For evaluated results of players with distinct accounts, what Record adds to the ladder is exactly one
      win or loss per player. The game is recorded exactly when somebody won and, except in the two
      free-for-all types, no more won than lost; small FFA asks for one winner, team FFA for two. */
  lemma RecordedGame(queue: nat, acc: seq<Account>, result: seq<int>)
    requires |acc| == |result| && Distinct(acc) && AllDecided(result, |result|)
    ensures forall i :: 0 <= i < |acc| ==>
              Slots(acc, result, |acc|, acc[i], W3_GAMERESULT_WIN)
              + (Slots(acc, result, |acc|, acc[i], W3_GAMERESULT_LOSS) + Slots(acc, result, |acc|, acc[i], -1)) == 1
    ensures var w, l := Total(result, |result|, W3_GAMERESULT_WIN), Total(result, |result|, W3_GAMERESULT_LOSS);
            && w + l == |result|
            && (Plausible(queue, w, l, |result| - w - l) <==>
                if queue == SMALL_FFA then w == 1 else if queue == TEAM_FFA then w == 2 else 1 <= w <= l)
  {
    forall i | 0 <= i < |acc|
      ensures Slots(acc, result, |acc|, acc[i], W3_GAMERESULT_WIN)
              + (Slots(acc, result, |acc|, acc[i], W3_GAMERESULT_LOSS) + Slots(acc, result, |acc|, acc[i], -1)) == 1
    {
      SlotsOfPlayer(acc, result, |acc|, i, W3_GAMERESULT_WIN);
      SlotsOfPlayer(acc, result, |acc|, i, W3_GAMERESULT_LOSS);
      SlotsOfPlayer(acc, result, |acc|, i, -1);
    }
    DecidedTotals(result, |result|);
  }

  /** anongame_stats once all clients are gone: evaluate, then record. Every player of a recorded ladder game
      gains exactly one win or one loss, a win exactly by the majority of the reports. */
  method Stats(ladder: Ladder, queue: nat, reports: Reports, total: nat, acc: seq<Account>, result: array<int>) returns (recorded: bool)
    requires total <= MAX_GAMECOUNT == |reports| == result.Length && NumbersInRange(reports)
    requires |acc| == total && Distinct(acc)
    modifies ladder, result
    ensures Decided(reports, total, result[..])
    ensures recorded <==>
            (var w := Total(result[..total], total, W3_GAMERESULT_WIN);
             if queue == SMALL_FFA then w == 1 else if queue == TEAM_FFA then w == 2 else 1 <= w <= total - w)
    ensures forall i :: 0 <= i < total && LadderOf(queue).Some? ==>
              var id := LadderOf(queue).value;
              var won := Votes(reports, total, i, W3_GAMERESULT_WIN) > Votes(reports, total, i, W3_GAMERESULT_LOSS);
              && Score(ladder.wins, acc[i], id) == old(Score(ladder.wins, acc[i], id)) + (if recorded && won then 1 else 0)
              && Score(ladder.losses, acc[i], id) == old(Score(ladder.losses, acc[i], id)) + (if recorded && !won then 1 else 0)
  {
    EvaluateResults(reports, total, result);
    var results := result[..total];
    recorded := ladder.Record(queue, acc, results);
    RecordedGame(queue, acc, results);
    forall i | 0 <= i < total
      ensures Slots(acc, results, total, acc[i], W3_GAMERESULT_WIN) == if results[i] == W3_GAMERESULT_WIN then 1 else 0
      ensures Slots(acc, results, total, acc[i], W3_GAMERESULT_LOSS) == if results[i] == W3_GAMERESULT_LOSS then 1 else 0
      ensures Slots(acc, results, total, acc[i], -1) == 0
      ensures results[i] == result[..][i]
    {
      SlotsOfPlayer(acc, results, total, i, W3_GAMERESULT_WIN);
      SlotsOfPlayer(acc, results, total, i, W3_GAMERESULT_LOSS);
      SlotsOfPlayer(acc, results, total, i, -1);
    }
  }
}
