/** The team tab script: `openTab`, which marks one tab link and at most one
    panel active, and `updateTabLabels`, which names tabs 2 and 3 after the
    teams of the selected "Home vs Away" option. */
module SwitchTab {
  import opened Basics
  import opened Seqs
  import opened Dom

  const VsSeparator: string := " vs "

  /** `selectedOption.split(' vs ')` when it gives exactly two parts. Read
      off the occurrences of " vs ": there must be one, none may follow the
      first, and the teams are the text before and after it. */
  function TeamsFromLabel(text: string): (r: Option<(string, string)>)
    ensures FirstOccurrence(text, VsSeparator).None? ==> r.None?
    ensures FirstOccurrence(text, VsSeparator).Some? ==>
      var k := FirstOccurrence(text, VsSeparator).value;
      var rest := text[k + |VsSeparator|..];
      && (r.Some? <==> !Contains(rest, VsSeparator))
      && (r.Some? ==> r.value == (text[..k], rest) && text == r.value.0 + VsSeparator + r.value.1)
  {
    var parts := Split(text, VsSeparator);
    var teams := if |parts| == 2 then Some((parts[0], parts[1])) else None;
    if FirstOccurrence(text, VsSeparator).None? then
      SplitWithoutSeparator(text, VsSeparator); teams
    else
      SplitAtOccurrence(text, VsSeparator, FirstOccurrence(text, VsSeparator).value); teams
  }

  /** The text the server builds for a match: `f"{home} vs {away}"`. */
  function MatchLabel(home: string, away: string): string {
    home + VsSeparator + away
  }

  /** The text splits back into the two names when the away name has no
      " vs " and the home name has none either, counting one that would be
      completed by the separator itself (a home name ending in " vs"). */
  lemma {:induction false} LabelRoundTrip(home: string, away: string)
    requires !Contains(home + " vs", VsSeparator)
    requires !Contains(away, VsSeparator)
    ensures TeamsFromLabel(MatchLabel(home, away)) == Some((home, away))
  {
    forall i: nat | i < |home| ensures !OccursAt(home + VsSeparator, i, VsSeparator) {
      assert (home + VsSeparator)[i..i + 4] == (home + " vs")[i..i + 4];
      assert !OccursAt(home + " vs", i, VsSeparator);
    }
    SplitAfterPrefix(home, VsSeparator, away);
    SplitWithoutSeparator(away, VsSeparator);
  }

  /** Containing no " vs " is not enough on the home side: "Team vs" against
      "B" gives the text "Team vs vs B", which splits into "Team" and
      "vs B". */
  lemma HomeEndingInVsSplitsWrongly()
    ensures !Contains("Team vs", VsSeparator) && !Contains("B", VsSeparator)
    ensures TeamsFromLabel(MatchLabel("Team vs", "B")) == Some(("Team", "vs B"))
  {
    TeamVsHasNoSeparator();
    assert !OccursAt("B", 0, VsSeparator);
    assert MatchLabel("Team vs", "B") == "Team" + VsSeparator + "vs B";
    forall i: nat | i < 4 ensures !OccursAt("Team" + VsSeparator, i, VsSeparator) {
      assert ("Team" + VsSeparator)[i] != ' ';
    }
    SplitAfterPrefix("Team", VsSeparator, "vs B");
    VsBSplitsAlone();
  }

  lemma TeamVsHasNoSeparator()
    ensures !Contains("Team vs", VsSeparator)
  {
    var home := "Team vs";
    forall i: nat | i <= |home| ensures !OccursAt(home, i, VsSeparator) {
      if i + 4 <= |home| {
        assert home[i + 3] != ' ' || home[i] != ' ';
      }
    }
  }

  lemma VsBSplitsAlone()
    ensures Split("vs B", VsSeparator) == ["vs B"]
  {
    forall i: nat | i <= 4 ensures !OccursAt("vs B", i, VsSeparator) {
      if i == 0 {
        assert "vs B"[0] != ' ';
      }
    }
    SplitWithoutSeparator("vs B", VsSeparator);
  }

  /** The tab links and panels of the team page, with the text and
      `data-team` of tab links 2 and 3 and the paragraphs of panels `Tab2`
      and `Tab3`. */
  class TeamTabs {
    const strip: TabStrip
    var tab2Text: string
    var tab2Team: Option<string>
    var tab3Text: string
    var tab3Team: Option<string>
    var panel2Text: string
    var panel3Text: string

    ghost predicate Valid()
      reads this, strip
    {
      strip.Valid()
    }

    constructor(linkCount: nat, panelIds: seq<string>)
      ensures Valid() && fresh(strip)
      ensures |strip.buttons| == linkCount && strip.panelIds == panelIds
      ensures tab2Team == None && tab3Team == None
    {
      strip := new TabStrip(linkCount, panelIds);
      tab2Text, tab3Text := "", "";
      tab2Team, tab3Team := None, None;
      panel2Text, panel3Text := "", "";
    }

    /** `openTab(event, tabId)` from a click on link `clicked`: the clicked
        link is the only active one; the first panel with that id, if any,
        is the only active panel, and with no such panel none is. */
    method OpenTab(clicked: nat, tabId: string)
      requires Valid() && clicked < |strip.buttons|
      modifies strip
      ensures Valid()
      ensures strip.panelIds == old(strip.panelIds)
      ensures |strip.buttons| == |old(strip.buttons)| && |strip.panels| == |old(strip.panels)|
      ensures forall j :: 0 <= j < |strip.buttons| ==> (strip.buttons[j] <==> j == clicked)
      ensures forall j :: 0 <= j < |strip.panels| ==>
        (strip.panels[j] <==> FirstIndex(strip.panelIds, tabId) == Some(j))
    {
      strip.DeactivateButtons();
      strip.buttons := strip.buttons[clicked := true];
      strip.DeactivatePanels();
      var target := FirstIndex(strip.panelIds, tabId);
      if target.Some? {
        strip.panels := strip.panels[target.value := true];
      }
    }

    /** `updateTabLabels()` with the text of the selected option (`None` when
        the select has no option, so reading it throws). With exactly two
        parts the tabs and panels are renamed; otherwise nothing changes. */
    method UpdateTabLabels(selected: Option<string>)
      modifies this
      ensures selected.Some? && TeamsFromLabel(selected.value).Some? ==>
        var teams := TeamsFromLabel(selected.value).value;
        && tab2Text == teams.0 && tab2Team == Some(teams.0)
        && tab3Text == teams.1 && tab3Team == Some(teams.1)
        && panel2Text == "Content for " + teams.0
        && panel3Text == "Content for " + teams.1
      ensures !(selected.Some? && TeamsFromLabel(selected.value).Some?) ==>
        && tab2Text == old(tab2Text) && tab2Team == old(tab2Team)
        && tab3Text == old(tab3Text) && tab3Team == old(tab3Team)
        && panel2Text == old(panel2Text) && panel3Text == old(panel3Text)
    {
      if selected.None? {
        return;
      }
      var teams := TeamsFromLabel(selected.value);
      if teams.Some? {
        var (team1, team2) := teams.value;
        tab2Text := team1;
        tab2Team := Some(team1);
        tab3Text := team2;
        tab3Team := Some(team2);
        panel2Text := "Content for " + team1;
        panel3Text := "Content for " + team2;
      }
    }
  }

  /** Selecting a server-built text names the two tabs after its teams. */
  method SelectMatch(home: string, away: string) returns (tab2: string, tab3: string)
    requires !Contains(home + " vs", VsSeparator) && !Contains(away, VsSeparator)
    ensures tab2 == home && tab3 == away
  {
    var tabs := new TeamTabs(3, ["Tab1", "Tab2", "Tab3"]);
    LabelRoundTrip(home, away);
    tabs.UpdateTabLabels(Some(MatchLabel(home, away)));
    tab2, tab3 := tabs.tab2Text, tabs.tab3Text;
  }
}
