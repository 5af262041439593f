/** The first draft of the match page script: the dropdown population with
    a single reassigned toggle handler, the two-team labelling rule of the
    `MatchDropdownPopulated` handler, and `showTab`. */
module MatchAnalysis {
  import opened Basics
  import opened Seqs
  import opened Dom
  import opened MatchCache
  import opened MatchList

  /** `data.map(item => item.team)`. */
  function Teams(rows: seq<MatchRow>): (r: seq<string>)
    ensures |r| == |rows| && forall i :: 0 <= i < |rows| ==> r[i] == rows[i].team
  {
    if rows == [] then [] else Teams(rows[..|rows| - 1]) + [rows[|rows| - 1].team]
  }

  /** The labels for tab buttons 2 and 3: present exactly when the rows name
      two distinct teams; then the first is the team of the first row, the
      second the team of the first row naming another team, and every row
      names one of the two. */
  function TeamPair(rows: seq<MatchRow>): (r: Option<(string, string)>)
    ensures r.Some? <==> |Distinct(Teams(rows))| == 2
    ensures r.Some? ==>
      && |rows| > 0 && FirstOther(Teams(rows)).Some?
      && r.value.0 == rows[0].team
      && r.value.1 == rows[FirstOther(Teams(rows)).value].team
      && r.value.0 != r.value.1
      && forall i :: 0 <= i < |rows| ==> rows[i].team == r.value.0 || rows[i].team == r.value.1
  {
    var teams := Distinct(Teams(rows));
    if |teams| == 2 then
      DistinctHead(Teams(rows));
      Some((teams[0], teams[1]))
    else None
  }

  const TeamsErrorLog := "Unexpected number of unique teams in match data."

  /** The page: the match dropdown, the match-data cache, the graph panel,
      the tab strip, the two team labels, the `console.error` log and the
      `/fetch_matches` requests. */
  class MatchAnalysisPage {
    const list: DropdownList
    const cache: Cache
    const graph: GraphPanel
    const tabs: TabStrip
    var toggleAssigned: bool    // `selectedItemMatches.onclick` has been set
    var team1Label: string
    var team2Label: string
    var errors: seq<string>
    var matchRequests: seq<Selection>

    ghost predicate Valid()
      reads this, list, tabs
    {
      list.Valid() && tabs.Valid()
    }

    constructor(buttonCount: nat, panelIds: seq<string>)
      ensures Valid() && fresh(list) && fresh(cache) && fresh(graph) && fresh(tabs)
      ensures list.content == Initial && list.display == "" && list.chosen == []
      ensures cache.entries == map[] && cache.requests == []
      ensures graph.content == Blank && graph.requests == []
      ensures tabs.panelIds == panelIds && |tabs.buttons| == buttonCount
      ensures !toggleAssigned && errors == [] && matchRequests == []
    {
      list := new DropdownList();
      cache := new Cache();
      graph := new GraphPanel();
      tabs := new TabStrip(buttonCount, panelIds);
      toggleAssigned := false;
      team1Label := "";
      team2Label := "";
      errors := [];
      matchRequests := [];
    }

    /** `populateMatchesDropdown(competition_id, season_id)` with the outcome
        of its `/fetch_matches` request. The loading text, the label reset,
        the graph prompt and the toggle handler come first; the stages replace
        the loading text when the body parses and groups, and the error text
        replaces it otherwise. */
    method PopulateMatchesDropdown(sel: Selection, response: Fetched<MatchesPayload>)
      requires Valid()
      modifies this, list, graph
      ensures Valid()
      ensures matchRequests == old(matchRequests) + [sel]
      ensures toggleAssigned
      ensures list.selectedText == "Select a Match" && graph.content == Prompt
      ensures BodyParsed(response) && PayloadGroups(response.body.value).Some? ==>
        && list.content == Stages(PayloadGroups(response.body.value).value)
        && list.stageDisplay == seq(|list.content.groups|, _ => "")
        && errors == old(errors)
      ensures !(BodyParsed(response) && PayloadGroups(response.body.value).Some?) ==>
        && list.content == LoadError
        && errors == old(errors) + ["Error fetching matches"]
      ensures list.display == old(list.display) && list.chosen == old(list.chosen)
      ensures graph.requests == old(graph.requests)
      ensures team1Label == old(team1Label) && team2Label == old(team2Label)
    {
      list.content := Loading;
      list.selectedText := "Select a Match";
      graph.content := Prompt;
      toggleAssigned := true;
      matchRequests := matchRequests + [sel];
      if response.Response? && response.body.Some? {
        list.content := Cleared;
        var groups := PayloadGroups(response.body.value);
        if groups.Some? {
          list.ShowStages(groups.value);
          return;
        }
      }
      list.content := LoadError;
      errors := errors + ["Error fetching matches"];
    }

    /** A click on `selectedItemMatches`: the one assigned handler toggles the
        dropdown; before any population there is no handler. */
    method ClickSelectedItem()
      requires Valid()
      modifies list
      ensures Valid()
      ensures list.display == if toggleAssigned then Toggle(old(list.display)) else old(list.display)
      ensures list.content == old(list.content) && list.stageDisplay == old(list.stageDisplay)
      ensures list.selectedText == old(list.selectedText) && list.chosen == old(list.chosen)
    {
      if toggleAssigned {
        list.display := Toggle(list.display);
      }
    }

    /** The `MatchDropdownPopulated` handler with the outcomes of its
        `/fetch_match` and `/fetch_match_graph` requests and the container's
        size. `data` is what `getMatchData` settles with. Labels change only
        for exactly two teams; the graph is requested whenever the data
        resolves to rows, and never when it rejects or is `null` (whose
        `.map` throws into the catch). */
    method OnMatchChosen(matchId: nat, dataResponse: Fetched<MatchData>,
                         graphResponse: Fetched<GraphPayload>, width: int, height: int)
      returns (data: Result<MatchData>)
      modifies this, cache, graph
      ensures IsHit(old(cache.entries), matchId) ==>
        data == Ok(old(cache.entries)[matchId]) && cache.requests == old(cache.requests)
      ensures !IsHit(old(cache.entries), matchId) ==>
        && cache.requests == old(cache.requests) + [matchId]
        && (data.Ok? <==> Resolves(dataResponse))
        && (Resolves(dataResponse) ==> data == Ok(dataResponse.body.value))
      ensures data.Ok? && data.value.Rows? ==>
        && graph.requests == old(graph.requests) + [GraphRequest(matchId, width, height)]
        && (GraphLoads(graphResponse) ==> graph.content == Rendered(graphResponse.body.value.graphDiv))
        && (!GraphLoads(graphResponse) ==> graph.content == LoadFailed)
        && errors == old(errors)
             + (if TeamPair(data.value.rows).Some? then [] else [TeamsErrorLog])
             + (if GraphLoads(graphResponse) then [] else [GraphErrorLog])
      ensures !(data.Ok? && data.value.Rows?) ==>
        && graph.requests == old(graph.requests) && graph.content == old(graph.content)
        && errors == old(errors) + [DataErrorLog]
      ensures data.Ok? && data.value.Rows? && TeamPair(data.value.rows).Some? ==>
        (team1Label, team2Label) == TeamPair(data.value.rows).value
      ensures !(data.Ok? && data.value.Rows? && TeamPair(data.value.rows).Some?) ==>
        team1Label == old(team1Label) && team2Label == old(team2Label)
      ensures toggleAssigned == old(toggleAssigned) && matchRequests == old(matchRequests)
    {
      data := cache.Get(matchId, dataResponse);
      if data.Err? {
        errors := errors + [DataErrorLog];
        return;
      }
      if data.value.Null? {
        errors := errors + [DataErrorLog];
        return;
      }
      ShowTeams(data.value.rows);
      var logged := graph.Load(matchId, width, height, graphResponse);
      errors := errors + logged;
    }

    /** The label step of the handler: both labels when the rows name
        exactly two teams, otherwise an error logged and the labels kept. */
    method ShowTeams(rows: seq<MatchRow>)
      modifies this
      ensures TeamPair(rows).Some? ==> (team1Label, team2Label) == TeamPair(rows).value && errors == old(errors)
      ensures TeamPair(rows).None? ==>
        team1Label == old(team1Label) && team2Label == old(team2Label) && errors == old(errors) + [TeamsErrorLog]
      ensures toggleAssigned == old(toggleAssigned) && matchRequests == old(matchRequests)
    {
      var pair := TeamPair(rows);
      if pair.Some? {
        team1Label := pair.value.0;
        team2Label := pair.value.1;
      } else {
        errors := errors + [TeamsErrorLog];
      }
    }

    /** `showTab(tabId)` from a click on button `clicked`: every panel and
        every button loses `active`; then the first panel with that id and the
        clicked button gain it. When no panel has the id the lookup throws
        before the button is marked, so nothing is active. */
    method ShowTab(tabId: string, clicked: nat) returns (raised: bool)
      requires Valid() && clicked < |tabs.buttons|
      modifies tabs
      ensures Valid()
      ensures raised <==> FirstIndex(tabs.panelIds, tabId).None?
      ensures tabs.panelIds == old(tabs.panelIds)
      ensures |tabs.panels| == |old(tabs.panels)| && |tabs.buttons| == |old(tabs.buttons)|
      ensures forall j :: 0 <= j < |tabs.panels| ==>
        (tabs.panels[j] <==> FirstIndex(tabs.panelIds, tabId) == Some(j))
      ensures forall j :: 0 <= j < |tabs.buttons| ==> (tabs.buttons[j] <==> !raised && j == clicked)
    {
      tabs.DeactivatePanels();
      tabs.DeactivateButtons();
      var target := FirstIndex(tabs.panelIds, tabId);
      if target.None? {
        return true;
      }
      tabs.panels := tabs.panels[target.value := true];
      tabs.buttons := tabs.buttons[clicked := true];
      raised := false;
    }
  }

  /** However many times the dropdown was populated, the handler is
      reassigned rather than added: one click on a fresh page after `n >= 1`
      populations shows the dropdown. */
  method ClickAfterPopulations(n: nat, sel: Selection, response: Fetched<MatchesPayload>)
    returns (shown: bool)
    requires n >= 1
    ensures shown
  {
    var page := new MatchAnalysisPage(3, []);
    var i := 0;
    while i < n
      invariant 0 <= i <= n
      invariant page.Valid() && fresh(page.list) && fresh(page.graph)
      invariant page.list.display == ""
      invariant i > 0 ==> page.toggleAssigned
    {
      page.PopulateMatchesDropdown(sel, response);
      i := i + 1;
    }
    page.ClickSelectedItem();
    shown := IsShown(page.list.display);
  }
}
