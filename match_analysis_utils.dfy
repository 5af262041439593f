/** The match overview of `utils/match_analysis_utils.py`: goals and assists
    grouped by player and formatted with one emoji per goal or assist, the
    pass and shot counts of both sides, and the nineteen-key overview that
    combines them with the fields of the match's overview row. */
module MatchAnalysisUtils {
  import opened Basics
  import opened Seqs
  import opened Groups

  /** `shot_key_pass_id`: the id of the pass that set up a shot, NaN where
      the raw data has none, or the `-999` fill value other parts of the
      pipeline use for missing cells. */
  datatype KeyPass = NaN | Sentinel | Ref(id: string)

  /** The columns of one event row that the overview reads. Event ids are
      strings, so neither NaN nor `-999` equals any of them. */
  datatype EventRow = EventRow(
    id: string, team: string, player: string, minute: nat, kind: string,
    shotOutcome: Option<string>, keyPass: KeyPass, passOutcome: Option<string>)

  /** One row of the match overview frame, with its index label. */
  datatype OverviewRow = OverviewRow(
    index: int, homeManagers: string, awayManagers: string, stadium: string,
    homeTeam: string, awayTeam: string, homeScore: int, awayScore: int,
    referee: string, competitionStage: string)

  predicate IsGoal(r: EventRow) { r.shotOutcome == Some("Goal") }

  /** `str(minute)`. */
  function MinuteText(m: nat): (s: string)
    ensures |s| >= 1 && forall i :: 0 <= i < |s| ==> IsDigit(s[i])
  {
    NatToString(m)
  }

  /** The first row whose `id` is `id`. */
  function FirstWithId(rows: seq<EventRow>, id: string): (r: Option<EventRow>)
    ensures r.Some? ==> exists i :: (0 <= i < |rows| && rows[i] == r.value && r.value.id == id
      && forall j :: 0 <= j < i ==> rows[j].id != id)
    ensures r.None? ==> forall j :: 0 <= j < |rows| ==> rows[j].id != id
  {
    if rows == [] then None
    else if rows[0].id == id then Some(rows[0])
    else
      var r := FirstWithId(rows[1..], id);
      assert r.Some? ==> exists i :: (0 <= i < |rows[1..]| && rows[1..][i] == r.value && r.value.id == id
        && forall j :: 0 <= j < i ==> rows[1..][j].id != id);
      r
  }

  /** `match_data[match_data['id'] == key_pass]['player'/'minute'].iloc[0]`:
      `None` where the filtered frame is empty and `iloc[0]` raises an
      IndexError. A NaN or `-999` key never matches a string id. */
  function Lookup(rows: seq<EventRow>, kp: KeyPass): (r: Option<EventRow>)
    ensures r.Some? <==> kp.Ref? && exists j :: 0 <= j < |rows| && rows[j].id == kp.id
    ensures r.Some? ==> r.value in rows && r.value.id == kp.id
  {
    match kp
    case Ref(id) => FirstWithId(rows, id)
    case _ => None
  }

  /** Which test decides that a goal has an assist to look up: the code as
      written tests `!= -999` for home goals and `not isna` for away goals;
      the corrected rule looks up an assist only for an actual pass id. */
  datatype AssistRule = AsWritten | Corrected

  datatype Side = Home | Away

  predicate SeeksAssist(rule: AssistRule, side: Side, kp: KeyPass) {
    match rule
    case AsWritten => if side == Home then kp != Sentinel else kp != NaN
    case Corrected => kp.Ref?
  }

  /** The four dictionaries of lists, `{player: [minute, ...]}`, in
      insertion order. */
  datatype Tally = Tally(
    goalsHome: seq<Group<string, string>>, assistsHome: seq<Group<string, string>>,
    goalsAway: seq<Group<string, string>>, assistsAway: seq<Group<string, string>>)

  const EmptyTally := Tally([], [], [], [])

  /** Record goal `g` for the side whose team it is: the scorer's minute,
      then, when the rule asks for one, the assist's player and minute. */
  function CreditSide(rows: seq<EventRow>, goals: seq<Group<string, string>>, assists: seq<Group<string, string>>,
                      g: EventRow, side: Side, rule: AssistRule): Result<(seq<Group<string, string>>, seq<Group<string, string>>)>
  {
    var goals' := Add(goals, g.player, MinuteText(g.minute));
    if !SeeksAssist(rule, side, g.keyPass) then Ok((goals', assists))
    else
      var a := Lookup(rows, g.keyPass);
      if a.None? then Err("IndexError")
      else Ok((goals', Add(assists, a.value.player, MinuteText(a.value.minute))))
  }

  /** One iteration of the `iterrows` loop: the home branch, then the away
      branch (two independent `if`s). */
  function Step(rows: seq<EventRow>, t: Tally, g: EventRow, home: string, away: string, rule: AssistRule): Result<Tally>
  {
    var h := if g.team == home then CreditSide(rows, t.goalsHome, t.assistsHome, g, Home, rule)
             else Ok((t.goalsHome, t.assistsHome));
    if h.Err? then Err(h.error)
    else
      var a := if g.team == away then CreditSide(rows, t.goalsAway, t.assistsAway, g, Away, rule)
               else Ok((t.goalsAway, t.assistsAway));
      if a.Err? then Err(a.error)
      else Ok(Tally(h.value.0, h.value.1, a.value.0, a.value.1))
  }

  /** The loop over the goal rows `goals`, stopping at the first error. */
  function TallyOf(rows: seq<EventRow>, goals: seq<EventRow>, home: string, away: string, rule: AssistRule): Result<Tally>
  {
    if goals == [] then Ok(EmptyTally)
    else
      var prev := TallyOf(rows, goals[..|goals| - 1], home, away, rule);
      if prev.Err? then prev else Step(rows, prev.value, goals[|goals| - 1], home, away, rule)
  }

  /** The (scorer, minute) pairs of `team`'s goals, in goal order. */
  function GoalPairs(goals: seq<EventRow>, team: string): (ps: seq<(string, string)>)
    ensures |ps| <= |goals|
  {
    if goals == [] then []
    else
      var g := goals[|goals| - 1];
      GoalPairs(goals[..|goals| - 1], team) + (if g.team == team then [(g.player, MinuteText(g.minute))] else [])
  }

  /** The (assister, minute) pairs of `team`'s goals that look up an assist
      that exists, in goal order. */
  function AssistPairs(rows: seq<EventRow>, goals: seq<EventRow>, team: string, side: Side, rule: AssistRule): seq<(string, string)>
  {
    if goals == [] then []
    else
      var g := goals[|goals| - 1];
      var a := Lookup(rows, g.keyPass);
      AssistPairs(rows, goals[..|goals| - 1], team, side, rule)
        + (if g.team == team && SeeksAssist(rule, side, g.keyPass) && a.Some?
           then [(a.value.player, MinuteText(a.value.minute))] else [])
  }

  /** A goal of `team` whose assist lookup, under `rule`, finds nothing. */
  predicate Unresolved(rows: seq<EventRow>, g: EventRow, team: string, side: Side, rule: AssistRule) {
    g.team == team && SeeksAssist(rule, side, g.keyPass) && Lookup(rows, g.keyPass).None?
  }

  predicate AllResolve(rows: seq<EventRow>, goals: seq<EventRow>, home: string, away: string, rule: AssistRule) {
    forall i :: 0 <= i < |goals| ==>
      !Unresolved(rows, goals[i], home, Home, rule) && !Unresolved(rows, goals[i], away, Away, rule)
  }

  lemma {:induction false} AllResolvePrefix(rows: seq<EventRow>, goals: seq<EventRow>, home: string, away: string, rule: AssistRule)
    requires |goals| > 0
    ensures AllResolve(rows, goals, home, away, rule) <==>
      AllResolve(rows, goals[..|goals| - 1], home, away, rule)
      && !Unresolved(rows, goals[|goals| - 1], home, Home, rule)
      && !Unresolved(rows, goals[|goals| - 1], away, Away, rule)
  {
    var p := goals[..|goals| - 1];
    assert forall i :: 0 <= i < |p| ==> p[i] == goals[i];
  }

  lemma GroupPairsSnoc(ps: seq<(string, string)>, extra: seq<(string, string)>)
    requires |extra| <= 1
    ensures GroupPairs(ps + extra) == if extra == [] then GroupPairs(ps) else Add(GroupPairs(ps), extra[0].0, extra[0].1)
  {
    if extra == [] {
      assert ps + extra == ps;
    } else {
      assert (ps + extra)[..|ps|] == ps;
    }
  }

  /** One loop step keeps the dictionaries equal to the groupings of the
      pairs seen so far. */
  lemma StepSpec(rows: seq<EventRow>, p: seq<EventRow>, g: EventRow, home: string, away: string, rule: AssistRule)
    requires TallyOf(rows, p, home, away, rule) == Ok(Tally(
        GroupPairs(GoalPairs(p, home)), GroupPairs(AssistPairs(rows, p, home, Home, rule)),
        GroupPairs(GoalPairs(p, away)), GroupPairs(AssistPairs(rows, p, away, Away, rule))))
    ensures var goals := p + [g];
      && (TallyOf(rows, goals, home, away, rule).Ok? <==>
          !Unresolved(rows, g, home, Home, rule) && !Unresolved(rows, g, away, Away, rule))
      && (TallyOf(rows, goals, home, away, rule).Ok? ==>
          TallyOf(rows, goals, home, away, rule).value == Tally(
            GroupPairs(GoalPairs(goals, home)), GroupPairs(AssistPairs(rows, goals, home, Home, rule)),
            GroupPairs(GoalPairs(goals, away)), GroupPairs(AssistPairs(rows, goals, away, Away, rule))))
  {
    var goals := p + [g];
    assert goals[..|goals| - 1] == p;
    var a := Lookup(rows, g.keyPass);
    GroupPairsSnoc(GoalPairs(p, home), if g.team == home then [(g.player, MinuteText(g.minute))] else []);
    GroupPairsSnoc(GoalPairs(p, away), if g.team == away then [(g.player, MinuteText(g.minute))] else []);
    GroupPairsSnoc(AssistPairs(rows, p, home, Home, rule),
      if g.team == home && SeeksAssist(rule, Home, g.keyPass) && a.Some? then [(a.value.player, MinuteText(a.value.minute))] else []);
    GroupPairsSnoc(AssistPairs(rows, p, away, Away, rule),
      if g.team == away && SeeksAssist(rule, Away, g.keyPass) && a.Some? then [(a.value.player, MinuteText(a.value.minute))] else []);
  }

  /** The loop raises exactly when some goal of either side looks up an
      assist that is not there; otherwise each dictionary holds, for every
      player in first-credited order, that player's minutes in goal order. */
  lemma {:induction false} TallySpec(rows: seq<EventRow>, goals: seq<EventRow>, home: string, away: string, rule: AssistRule)
    ensures TallyOf(rows, goals, home, away, rule).Ok? <==> AllResolve(rows, goals, home, away, rule)
    ensures TallyOf(rows, goals, home, away, rule).Ok? ==>
      TallyOf(rows, goals, home, away, rule).value == Tally(
        GroupPairs(GoalPairs(goals, home)), GroupPairs(AssistPairs(rows, goals, home, Home, rule)),
        GroupPairs(GoalPairs(goals, away)), GroupPairs(AssistPairs(rows, goals, away, Away, rule)))
  {
    if goals != [] {
      var p, g := goals[..|goals| - 1], goals[|goals| - 1];
      assert goals == p + [g];
      TallySpec(rows, p, home, away, rule);
      AllResolvePrefix(rows, goals, home, away, rule);
      if TallyOf(rows, p, home, away, rule).Ok? {
        StepSpec(rows, p, g, home, away, rule);
      }
    }
  }

  /** Once the loop has raised, later goals change nothing. */
  lemma {:induction false} TallyErrSticky(rows: seq<EventRow>, goals: seq<EventRow>, n: nat, home: string, away: string, rule: AssistRule)
    requires n <= |goals| && TallyOf(rows, goals[..n], home, away, rule).Err?
    ensures TallyOf(rows, goals, home, away, rule) == TallyOf(rows, goals[..n], home, away, rule)
    decreases |goals| - n
  {
    if n < |goals| {
      assert goals[..n + 1][..n] == goals[..n];
      TallyErrSticky(rows, goals, n + 1, home, away, rule);
    } else {
      assert goals[..n] == goals;
    }
  }

  /** `home_team[0]` and `away_team[0]`: the row with index label 0. */
  function LabelZero(overview: seq<OverviewRow>): (r: Option<OverviewRow>)
    ensures r.Some? ==> r.value in overview && r.value.index == 0
    ensures r.None? ==> forall i :: 0 <= i < |overview| ==> overview[i].index != 0
  {
    if overview == [] then None
    else if overview[0].index == 0 then Some(overview[0])
    else LabelZero(overview[1..])
  }

  const Ball: char := '\U{26BD}'
  const Boot: char := '\U{1F45F}'

  /** Each minute followed by an apostrophe. */
  function Primed(minutes: seq<string>): (r: seq<string>)
    ensures |r| == |minutes|
    ensures forall i :: 0 <= i < |minutes| ==> r[i] == minutes[i] + "'"
  {
    if minutes == [] then [] else Primed(minutes[..|minutes| - 1]) + [minutes[|minutes| - 1] + "'"]
  }

  /** One formatted entry: the primed minutes joined by single spaces, then
      the player, then one emoji per minute. */
  function FormatEntry(player: string, minutes: seq<string>, emoji: char): string {
    Join(Primed(minutes), " ") + " " + player + " " + Repeat(emoji, |minutes|)
  }

  /** One formatted entry per dictionary item, in insertion order. */
  function FormatEntries(gs: seq<Group<string, string>>, emoji: char): (r: seq<string>)
    ensures |r| == |gs|
    ensures forall i :: 0 <= i < |gs| ==> r[i] == FormatEntry(gs[i].key, gs[i].items, emoji)
  {
    if gs == [] then [] else [FormatEntry(gs[0].key, gs[0].items, emoji)] + FormatEntries(gs[1..], emoji)
  }

  /** The four lists `goal_assist_data` returns. */
  datatype GoalAssist = GoalAssist(
    goalsHome: seq<string>, assistsHome: seq<string>, goalsAway: seq<string>, assistsAway: seq<string>)

  function Formatted(t: Tally): GoalAssist {
    GoalAssist(FormatEntries(t.goalsHome, Ball), FormatEntries(t.assistsHome, Boot),
               FormatEntries(t.goalsAway, Ball), FormatEntries(t.assistsAway, Boot))
  }

  /** `goal_assist_data(match_data, match_overview)` under an assist rule.
      `home_team[0]` is read at the first goal row, so a KeyError needs a
      goal and no overview row labelled 0; a failed assist lookup is an
      IndexError; otherwise the four formatted lists. */
  function GoalAssistSpec(overview: seq<OverviewRow>, rows: seq<EventRow>, rule: AssistRule): Result<GoalAssist> {
    var goals := Filter(rows, IsGoal);
    var o := LabelZero(overview);
    if o.None? then (if goals == [] then Ok(Formatted(EmptyTally)) else Err("KeyError"))
    else
      var t := TallyOf(rows, goals, o.value.homeTeam, o.value.awayTeam, rule);
      if t.Err? then Err(t.error) else Ok(Formatted(t.value))
  }

  /** A match without goals gives four empty lists, whatever the overview;
      without a row labelled 0 the computation raises exactly when there is
      a goal. */
  lemma GoallessWithoutLabelZero(overview: seq<OverviewRow>, rows: seq<EventRow>, rule: AssistRule)
    ensures Filter(rows, IsGoal) == [] ==> GoalAssistSpec(overview, rows, rule) == Ok(GoalAssist([], [], [], []))
    ensures LabelZero(overview).None? ==>
      (GoalAssistSpec(overview, rows, rule) == Err("KeyError") <==> Filter(rows, IsGoal) != [])
  {
  }

  /** `goal_assist_data` as written: the `iterrows` loop over the goal rows
      filling four dictionaries of lists, then the formatting. The labelled
      lookup of the team names happens inside the loop. */
  method GoalAssistData(overview: seq<OverviewRow>, rows: seq<EventRow>) returns (r: Result<GoalAssist>)
    ensures r == GoalAssistSpec(overview, rows, AsWritten)
  {
    var o := LabelZero(overview);
    var goals := Filter(rows, IsGoal);
    var goalsHome, assistsHome, goalsAway, assistsAway := [], [], [], [];
    for i := 0 to |goals|
      invariant o.None? ==> i == 0 && Tally(goalsHome, assistsHome, goalsAway, assistsAway) == EmptyTally
      invariant o.Some? ==>
        TallyOf(rows, goals[..i], o.value.homeTeam, o.value.awayTeam, AsWritten)
          == Ok(Tally(goalsHome, assistsHome, goalsAway, assistsAway))
    {
      if o.None? {
        return Err("KeyError");
      }
      var home, away := o.value.homeTeam, o.value.awayTeam;
      var g := goals[i];
      assert goals[..i + 1][..i] == goals[..i];
      assert TallyOf(rows, goals[..i + 1], home, away, AsWritten)
        == Step(rows, Tally(goalsHome, assistsHome, goalsAway, assistsAway), g, home, away, AsWritten);
      if g.team == home {
        goalsHome := Add(goalsHome, g.player, MinuteText(g.minute));
        if g.keyPass != Sentinel {
          var assist := Lookup(rows, g.keyPass);
          if assist.None? {
            TallyErrSticky(rows, goals, i + 1, home, away, AsWritten);
            return Err("IndexError");
          }
          assistsHome := Add(assistsHome, assist.value.player, MinuteText(assist.value.minute));
        }
      }
      if g.team == away {
        goalsAway := Add(goalsAway, g.player, MinuteText(g.minute));
        if g.keyPass != NaN {
          var assist := Lookup(rows, g.keyPass);
          if assist.None? {
            TallyErrSticky(rows, goals, i + 1, home, away, AsWritten);
            return Err("IndexError");
          }
          assistsAway := Add(assistsAway, assist.value.player, MinuteText(assist.value.minute));
        }
      }
    }
    assert goals[..|goals|] == goals;
    r := Ok(Formatted(Tally(goalsHome, assistsHome, goalsAway, assistsAway)));
  }

  // Emoji counts

  predicate AllDigits(s: string) { forall i :: 0 <= i < |s| ==> IsDigit(s[i]) }

  /** No `emoji` in any key, and every item a decimal number. */
  ghost predicate CleanGroups(gs: seq<Group<string, string>>, emoji: char) {
    forall i :: 0 <= i < |gs| ==> emoji !in gs[i].key && forall j :: 0 <= j < |gs[i].items| ==> AllDigits(gs[i].items[j])
  }

  ghost predicate CleanPairs(ps: seq<(string, string)>, emoji: char) {
    forall i :: 0 <= i < |ps| ==> emoji !in ps[i].0 && AllDigits(ps[i].1)
  }

  lemma {:induction false} AddClean(gs: seq<Group<string, string>>, k: string, v: string, emoji: char)
    requires CleanGroups(gs, emoji) && emoji !in k && AllDigits(v)
    ensures CleanGroups(Add(gs, k, v), emoji)
  {
    if gs != [] && gs[0].key != k {
      AddClean(gs[1..], k, v, emoji);
    }
  }

  lemma {:induction false} GroupPairsClean(ps: seq<(string, string)>, emoji: char)
    requires CleanPairs(ps, emoji)
    ensures CleanGroups(GroupPairs(ps), emoji)
  {
    if ps != [] {
      GroupPairsClean(ps[..|ps| - 1], emoji);
      AddClean(GroupPairs(ps[..|ps| - 1]), ps[|ps| - 1].0, ps[|ps| - 1].1, emoji);
    }
  }

  lemma {:induction false} GoalPairsClean(goals: seq<EventRow>, team: string, emoji: char)
    requires forall i :: 0 <= i < |goals| ==> emoji !in goals[i].player
    ensures CleanPairs(GoalPairs(goals, team), emoji)
  {
    if goals != [] {
      GoalPairsClean(goals[..|goals| - 1], team, emoji);
    }
  }

  lemma {:induction false} AssistPairsClean(rows: seq<EventRow>, goals: seq<EventRow>, team: string, side: Side, rule: AssistRule, emoji: char)
    requires forall i :: 0 <= i < |rows| ==> emoji !in rows[i].player
    ensures CleanPairs(AssistPairs(rows, goals, team, side, rule), emoji)
  {
    if goals != [] {
      AssistPairsClean(rows, goals[..|goals| - 1], team, side, rule, emoji);
    }
  }

  lemma {:induction false} CountCharAbsent(s: string, c: char)
    requires c !in s
    ensures CountChar(s, c) == 0
  {
    if s != [] {
      assert s[..|s| - 1] + [s[|s| - 1]] == s;
      CountCharAbsent(s[..|s| - 1], c);
    }
  }

  lemma {:induction false} CountCharRepeat(c: char, n: nat)
    ensures CountChar(Repeat(c, n), c) == n
  {
    if n > 0 {
      assert Repeat(c, n)[..n - 1] == Repeat(c, n - 1);
      CountCharRepeat(c, n - 1);
    }
  }

  /** The joined, primed minutes hold no emoji. */
  lemma {:induction false} PrimedJoinClean(minutes: seq<string>, emoji: char)
    requires !IsDigit(emoji) && emoji != ' ' && emoji != '\''
    requires forall j :: 0 <= j < |minutes| ==> AllDigits(minutes[j])
    ensures emoji !in Join(Primed(minutes), " ")
  {
    if |minutes| > 1 {
      var p := minutes[..|minutes| - 1];
      PrimedJoinClean(p, emoji);
      assert Primed(minutes)[..|minutes| - 1] == Primed(p);
      assert emoji !in minutes[|minutes| - 1] + "'";
    } else if |minutes| == 1 {
      assert Primed(minutes) == Primed([]) + [minutes[0] + "'"];
      assert emoji !in minutes[0] + "'";
    }
  }

  /** A formatted entry carries exactly one emoji per minute. */
  lemma EntryEmojis(player: string, minutes: seq<string>, emoji: char)
    requires !IsDigit(emoji) && emoji != ' ' && emoji != '\'' && emoji !in player
    requires forall j :: 0 <= j < |minutes| ==> AllDigits(minutes[j])
    ensures CountChar(FormatEntry(player, minutes, emoji), emoji) == |minutes|
  {
    var head := Join(Primed(minutes), " ") + " " + player + " ";
    PrimedJoinClean(minutes, emoji);
    CountCharAbsent(head, emoji);
    CountCharAppend(head, Repeat(emoji, |minutes|), emoji);
    CountCharRepeat(emoji, |minutes|);
  }

  /** The emojis across a list of entries. */
  function EmojiTotal(entries: seq<string>, emoji: char): nat {
    if entries == [] then 0 else CountChar(entries[0], emoji) + EmojiTotal(entries[1..], emoji)
  }

  /** Across all entries, one emoji per stored minute. */
  lemma {:induction false} EmojiTotalFlatten(gs: seq<Group<string, string>>, emoji: char)
    requires !IsDigit(emoji) && emoji != ' ' && emoji != '\''
    requires CleanGroups(gs, emoji)
    ensures EmojiTotal(FormatEntries(gs, emoji), emoji) == |Flatten(gs)|
  {
    if gs != [] {
      EntryEmojis(gs[0].key, gs[0].items, emoji);
      EmojiTotalFlatten(gs[1..], emoji);
      assert FormatEntries(gs, emoji)[1..] == FormatEntries(gs[1..], emoji);
    }
  }

  lemma GroupPairsSize(ps: seq<(string, string)>)
    ensures |Flatten(GroupPairs(ps))| == |ps|
  {
    GroupPairsSpec(ps);
    assert |multiset(Flatten(GroupPairs(ps)))| == |multiset(Seconds(ps))|;
  }

  /** The number of goals of `team` among `goals`. */
  function TeamGoals(goals: seq<EventRow>, team: string): nat {
    if goals == [] then 0
    else TeamGoals(goals[..|goals| - 1], team) + (if goals[|goals| - 1].team == team then 1 else 0)
  }

  lemma {:induction false} GoalPairsCount(goals: seq<EventRow>, team: string)
    ensures |GoalPairs(goals, team)| == TeamGoals(goals, team)
  {
    if goals != [] {
      GoalPairsCount(goals[..|goals| - 1], team);
    }
  }

  /** The football emojis across a side's formatted goal entries number
      that side's goals, and the boot emojis across its assist entries
      number its resolved assists, whenever no player name contains the
      emoji. */
  lemma GoalEmojiTotals(rows: seq<EventRow>, goals: seq<EventRow>, home: string, away: string, rule: AssistRule)
    requires TallyOf(rows, goals, home, away, rule).Ok?
    requires forall i :: 0 <= i < |goals| ==> Ball !in goals[i].player
    requires forall i :: 0 <= i < |rows| ==> Boot !in rows[i].player
    ensures var f := Formatted(TallyOf(rows, goals, home, away, rule).value);
      && EmojiTotal(f.goalsHome, Ball) == TeamGoals(goals, home)
      && EmojiTotal(f.goalsAway, Ball) == TeamGoals(goals, away)
      && EmojiTotal(f.assistsHome, Boot) == |AssistPairs(rows, goals, home, Home, rule)|
      && EmojiTotal(f.assistsAway, Boot) == |AssistPairs(rows, goals, away, Away, rule)|
  {
    TallySpec(rows, goals, home, away, rule);
    var teams := [home, away];
    var sides := [Home, Away];
    forall k | 0 <= k < 2
      ensures EmojiTotal(FormatEntries(GroupPairs(GoalPairs(goals, teams[k])), Ball), Ball) == TeamGoals(goals, teams[k])
      ensures EmojiTotal(FormatEntries(GroupPairs(AssistPairs(rows, goals, teams[k], sides[k], rule)), Boot), Boot)
        == |AssistPairs(rows, goals, teams[k], sides[k], rule)|
    {
      GoalPairsClean(goals, teams[k], Ball);
      GroupPairsClean(GoalPairs(goals, teams[k]), Ball);
      EmojiTotalFlatten(GroupPairs(GoalPairs(goals, teams[k])), Ball);
      GroupPairsSize(GoalPairs(goals, teams[k]));
      GoalPairsCount(goals, teams[k]);
      AssistPairsClean(rows, goals, teams[k], sides[k], rule, Boot);
      GroupPairsClean(AssistPairs(rows, goals, teams[k], sides[k], rule), Boot);
      EmojiTotalFlatten(GroupPairs(AssistPairs(rows, goals, teams[k], sides[k], rule)), Boot);
      GroupPairsSize(AssistPairs(rows, goals, teams[k], sides[k], rule));
    }
    assert teams[0] == home && teams[1] == away && sides[0] == Home && sides[1] == Away;
  }

  /** Scorers are listed in first-scored order and each scorer's minutes
      keep goal order. */
  lemma GoalGroupsOrder(rows: seq<EventRow>, goals: seq<EventRow>, home: string, away: string, rule: AssistRule)
    requires TallyOf(rows, goals, home, away, rule).Ok?
    ensures var t := TallyOf(rows, goals, home, away, rule).value;
      && Keys(t.goalsHome) == Distinct(Firsts(GoalPairs(goals, home)))
      && Keys(t.goalsAway) == Distinct(Firsts(GoalPairs(goals, away)))
      && (forall p :: ItemsOf(t.goalsHome, p) == ValuesFor(GoalPairs(goals, home), p))
      && (forall p :: ItemsOf(t.goalsAway, p) == ValuesFor(GoalPairs(goals, away), p))
  {
    TallySpec(rows, goals, home, away, rule);
    var t := TallyOf(rows, goals, home, away, rule).value;
    GroupsFollowPairs(GoalPairs(goals, home), t.goalsHome);
    GroupsFollowPairs(GoalPairs(goals, away), t.goalsAway);
  }

  lemma GroupsFollowPairs(ps: seq<(string, string)>, gs: seq<Group<string, string>>)
    requires gs == GroupPairs(ps)
    ensures Keys(gs) == Distinct(Firsts(ps)) && forall p :: ItemsOf(gs, p) == ValuesFor(ps, p)
  {
    GroupPairsSpec(ps);
  }

  /** A goal by a team that is neither the home nor the away team leaves
      every dictionary as it was. */
  lemma OtherTeamIgnored(rows: seq<EventRow>, goals: seq<EventRow>, g: EventRow, home: string, away: string, rule: AssistRule)
    requires g.team != home && g.team != away
    ensures TallyOf(rows, goals + [g], home, away, rule) == TallyOf(rows, goals, home, away, rule)
  {
    assert (goals + [g])[..|goals|] == goals;
  }

  /** As written, a home goal whose key pass is NaN, or an away goal whose
      key pass is `-999`, makes the assist lookup find no row, and the
      whole computation raises. */
  lemma AsWrittenUnassistedGoalRaises(rows: seq<EventRow>, goals: seq<EventRow>, home: string, away: string, i: nat)
    requires i < |goals|
    requires (goals[i].team == home && goals[i].keyPass == NaN) || (goals[i].team == away && goals[i].keyPass == Sentinel)
    ensures TallyOf(rows, goals, home, away, AsWritten).Err?
  {
    TallySpec(rows, goals, home, away, AsWritten);
    assert Unresolved(rows, goals[i], home, Home, AsWritten) || Unresolved(rows, goals[i], away, Away, AsWritten);
  }

  /** With the corrected rule the computation raises only for a goal whose
      key pass names an id that no row has: an unassisted goal, whichever
      fill value marks it, never raises. */
  lemma CorrectedRaisesOnlyOnDanglingIds(rows: seq<EventRow>, goals: seq<EventRow>, home: string, away: string)
    ensures TallyOf(rows, goals, home, away, Corrected).Ok? <==>
      forall i :: 0 <= i < |goals| && (goals[i].team == home || goals[i].team == away) && goals[i].keyPass.Ref? ==>
        exists j :: 0 <= j < |rows| && rows[j].id == goals[i].keyPass.id
  {
    TallySpec(rows, goals, home, away, Corrected);
  }

  // Pass and shot counts

  /** The rows of `team` whose `type` is `kind`. */
  function CountKind(rows: seq<EventRow>, team: string, kind: string): nat {
    if rows == [] then 0
    else
      var r := rows[|rows| - 1];
      CountKind(rows[..|rows| - 1], team, kind) + (if r.team == team && r.kind == kind then 1 else 0)
  }

  /** The passes of `team` whose `pass_outcome` is 'Incomplete'. */
  function CountIncomplete(rows: seq<EventRow>, team: string): nat {
    if rows == [] then 0
    else
      var r := rows[|rows| - 1];
      CountIncomplete(rows[..|rows| - 1], team)
        + (if r.team == team && r.kind == "Pass" && r.passOutcome == Some("Incomplete") then 1 else 0)
  }

  lemma {:induction false} IncompleteWithinPasses(rows: seq<EventRow>, team: string)
    ensures CountIncomplete(rows, team) <= CountKind(rows, team, "Pass")
  {
    if rows != [] {
      IncompleteWithinPasses(rows[..|rows| - 1], team);
    }
  }

  /** Passes, completed passes and shots of one side. */
  datatype SideStats = SideStats(passes: int, passesComplete: int, shots: int)

  /** Completed passes are passes minus incomplete ones, so they lie
      between zero and the number of passes; a pass without an outcome
      counts as completed. */
  function SideStatsOf(rows: seq<EventRow>, team: string): (s: SideStats)
    ensures 0 <= s.passesComplete <= s.passes
    ensures s.passes == CountKind(rows, team, "Pass") && s.shots == CountKind(rows, team, "Shot")
    ensures s.passes - s.passesComplete == CountIncomplete(rows, team)
  {
    IncompleteWithinPasses(rows, team);
    var passes := CountKind(rows, team, "Pass");
    SideStats(passes, passes - CountIncomplete(rows, team), CountKind(rows, team, "Shot"))
  }

  /** `match_stats_extractor`: the team names come from the overview's
      first row by position (`iloc[0]`), which raises an IndexError on an
      empty overview. */
  function MatchStats(overview: seq<OverviewRow>, rows: seq<EventRow>): (r: Result<(SideStats, SideStats)>)
    ensures r.Err? <==> overview == []
    ensures r.Ok? ==>
      var (home, away) := r.value;
      var homeTeam, awayTeam := overview[0].homeTeam, overview[0].awayTeam;
      && home.passes == CountKind(rows, homeTeam, "Pass") && away.passes == CountKind(rows, awayTeam, "Pass")
      && home.shots == CountKind(rows, homeTeam, "Shot") && away.shots == CountKind(rows, awayTeam, "Shot")
      && home.passes - home.passesComplete == CountIncomplete(rows, homeTeam)
      && away.passes - away.passesComplete == CountIncomplete(rows, awayTeam)
      && 0 <= home.passesComplete <= home.passes && 0 <= away.passesComplete <= away.passes
  {
    if overview == [] then Err("IndexError")
    else Ok((SideStatsOf(rows, overview[0].homeTeam), SideStatsOf(rows, overview[0].awayTeam)))
  }

  // The overview dictionary

  const OverviewFields: seq<string> := [
    "home_managers", "away_managers", "stadium", "home_team",
    "away_team", "home_score", "away_score", "referee", "competition_stage"]

  const ComputedKeys: seq<string> := [
    "home_goals", "home_assists", "away_goals", "away_assists", "home_passes",
    "away_passes", "home_passes_complete", "away_passes_complete", "home_shots", "away_shots"]

  datatype OverviewValue = Text(text: string) | Lines(lines: seq<string>) | Count(count: int)

  function Zip(keys: seq<string>, values: seq<OverviewValue>): (r: seq<(string, OverviewValue)>)
    requires |keys| == |values|
    ensures Firsts(r) == keys && Seconds(r) == values
  {
    if keys == [] then []
    else
      var n := |keys| - 1;
      var r := Zip(keys[..n], values[..n]) + [(keys[n], values[n])];
      assert r[..n] == Zip(keys[..n], values[..n]);
      assert keys[..n] + [keys[n]] == keys && values[..n] + [values[n]] == values;
      r
  }

  /** The nine overview fields, then the ten computed keys, no two equal. */
  lemma OverviewKeysDistinct()
    ensures |OverviewFields + ComputedKeys| == 19
    ensures NoDuplicates(OverviewFields + ComputedKeys)
  {
    var ks := OverviewFields + ComputedKeys;
    forall i, j | 0 <= i < j < |ks| ensures ks[i] != ks[j] {
      if i < 9 && j < 9 {
        assert OverviewFields[i] != OverviewFields[j];
      } else if i < 9 {
        assert OverviewFields[i] != ComputedKeys[j - 9];
      } else {
        assert ComputedKeys[i - 9] != ComputedKeys[j - 9];
      }
    }
  }

  function FieldTexts(o: OverviewRow): (r: seq<OverviewValue>)
    ensures |r| == 9
  {
    [Text(o.homeManagers), Text(o.awayManagers), Text(o.stadium), Text(o.homeTeam),
     Text(o.awayTeam), Count(o.homeScore), Count(o.awayScore), Text(o.referee), Text(o.competitionStage)]
  }

  /** `match_overview_results`: the overview fields of the first row, then
      the goal and assist lists, then the pass and shot counts. It raises
      on an empty overview and wherever the goal and assist lists raise.
      `rule` chooses which goals look up an assist: `AsWritten` is the
      code's own test, `Corrected` the intended one. */
  function MatchOverview(overview: seq<OverviewRow>, rows: seq<EventRow>, rule: AssistRule): (r: Result<seq<(string, OverviewValue)>>)
    ensures r.Err? <==> overview == [] || GoalAssistSpec(overview, rows, rule).Err?
    ensures r.Ok? ==> Firsts(r.value) == OverviewFields + ComputedKeys
    ensures r.Ok? ==> |overview| > 0 && Seconds(r.value)[..9] == FieldTexts(overview[0])
    ensures r.Ok? ==> (GoalAssistSpec(overview, rows, rule).Ok? && MatchStats(overview, rows).Ok?
      && var ga, st := GoalAssistSpec(overview, rows, rule).value, MatchStats(overview, rows).value;
      Seconds(r.value)[9..] == [
        Lines(ga.goalsHome), Lines(ga.assistsHome), Lines(ga.goalsAway), Lines(ga.assistsAway),
        Count(st.0.passes), Count(st.1.passes), Count(st.0.passesComplete), Count(st.1.passesComplete),
        Count(st.0.shots), Count(st.1.shots)])
  {
    if overview == [] then Err("IndexError")
    else
      var ga := GoalAssistSpec(overview, rows, rule);
      if ga.Err? then Err(ga.error)
      else
        var st := MatchStats(overview, rows).value;
        var computed := [
          Lines(ga.value.goalsHome), Lines(ga.value.assistsHome), Lines(ga.value.goalsAway), Lines(ga.value.assistsAway),
          Count(st.0.passes), Count(st.1.passes), Count(st.0.passesComplete), Count(st.1.passesComplete),
          Count(st.0.shots), Count(st.1.shots)];
        var values := FieldTexts(overview[0]) + computed;
        assert values[..9] == FieldTexts(overview[0]) && values[9..] == computed;
        Ok(Zip(OverviewFields + ComputedKeys, values))
  }

  /** As written, the overview raises for a home goal without a key pass:
      the home lookup runs on NaN, finds no row and `iloc[0]` raises. */
  lemma AsWrittenOverviewRaises(overview: seq<OverviewRow>, rows: seq<EventRow>, i: nat)
    requires LabelZero(overview).Some? && i < |Filter(rows, IsGoal)|
    requires Filter(rows, IsGoal)[i].team == LabelZero(overview).value.homeTeam
    requires Filter(rows, IsGoal)[i].keyPass == NaN
    ensures MatchOverview(overview, rows, AsWritten).Err?
  {
    var o := LabelZero(overview).value;
    AsWrittenUnassistedGoalRaises(rows, Filter(rows, IsGoal), o.homeTeam, o.awayTeam, i);
  }
}
