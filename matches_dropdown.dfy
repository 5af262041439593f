/** The second draft of the match page script. It differs from the first in
    three ways: a failed fetch leaves the dropdown as it was, every successful
    population adds another click listener to the dropdown toggle, and the
    match-chosen handler requests the graph for any resolved data. */
module MatchesDropdown {
  import opened Basics
  import opened Dom
  import opened MatchCache
  import opened MatchList

  class MatchesDropdownPage {
    const list: DropdownList
    const cache: Cache
    const graph: GraphPanel
    var toggleListeners: nat   // click listeners on `selectedItemMatches`
    var errors: seq<string>
    var matchRequests: seq<Selection>

    ghost predicate Valid()
      reads this, list
    {
      list.Valid()
    }

    constructor()
      ensures Valid() && fresh(list) && fresh(cache) && fresh(graph)
      ensures list.content == Initial && list.display == "" && list.chosen == []
      ensures cache.entries == map[] && cache.requests == []
      ensures graph.content == Blank && graph.requests == []
      ensures toggleListeners == 0 && errors == [] && matchRequests == []
    {
      list := new DropdownList();
      cache := new Cache();
      graph := new GraphPanel();
      toggleListeners := 0;
      errors := [];
      matchRequests := [];
    }

    /** `populateMatchesDropdown(competition_id, season_id)` with the outcome
        of `/fetch_matches`. A failed fetch or parse only logs. Once a body
        has parsed the dropdown is emptied first, so a reduce that throws
        leaves it empty; a reduce that succeeds shows the stages and adds one
        more toggle listener. */
    method PopulateMatchesDropdown(sel: Selection, response: Fetched<MatchesPayload>)
      requires Valid()
      modifies this, list
      ensures Valid()
      ensures matchRequests == old(matchRequests) + [sel]
      ensures !BodyParsed(response) ==>
        && list.content == old(list.content) && list.stageDisplay == old(list.stageDisplay)
        && toggleListeners == old(toggleListeners)
        && errors == old(errors) + ["Error fetching matches"]
      ensures BodyParsed(response) && PayloadGroups(response.body.value).None? ==>
        && list.content == Cleared
        && toggleListeners == old(toggleListeners)
        && errors == old(errors) + ["Error fetching matches"]
      ensures BodyParsed(response) && PayloadGroups(response.body.value).Some? ==>
        && list.content == Stages(PayloadGroups(response.body.value).value)
        && list.stageDisplay == seq(|list.content.groups|, _ => "")
        && toggleListeners == old(toggleListeners) + 1
        && errors == old(errors)
      ensures list.display == old(list.display) && list.selectedText == old(list.selectedText)
      ensures list.chosen == old(list.chosen)
    {
      matchRequests := matchRequests + [sel];
      if !(response.Response? && response.body.Some?) {
        errors := errors + ["Error fetching matches"];
        return;
      }
      list.content := Cleared;
      list.stageDisplay := [];
      var groups := PayloadGroups(response.body.value);
      if groups.None? {
        errors := errors + ["Error fetching matches"];
        return;
      }
      list.ShowStages(groups.value);
      toggleListeners := toggleListeners + 1;
    }

    /** A click on `selectedItemMatches` runs every listener in turn, each
        toggling the dropdown. */
    method ClickSelectedItem()
      requires Valid()
      modifies list
      ensures Valid()
      ensures list.display == ToggleN(old(list.display), toggleListeners)
      ensures list.content == old(list.content) && list.stageDisplay == old(list.stageDisplay)
      ensures list.selectedText == old(list.selectedText) && list.chosen == old(list.chosen)
    {
      var i := 0;
      while i < toggleListeners
        invariant 0 <= i <= toggleListeners
        invariant list.display == ToggleN(old(list.display), i)
        invariant list.content == old(list.content) && list.stageDisplay == old(list.stageDisplay)
        invariant list.selectedText == old(list.selectedText) && list.chosen == old(list.chosen)
      {
        list.display := Toggle(list.display);
        i := i + 1;
      }
    }

    /** The `MatchDropdownPopulated` handler: the graph is requested after any
        resolution of `getMatchData`, `null` included, and never after a
        rejection, which is only logged. */
    method OnMatchChosen(matchId: nat, dataResponse: Fetched<MatchData>,
                         graphResponse: Fetched<GraphPayload>, width: int, height: int)
      returns (data: Result<MatchData>)
      modifies this, cache, graph
      ensures IsHit(old(cache.entries), matchId) ==>
        data == Ok(old(cache.entries)[matchId]) && cache.requests == old(cache.requests)
      ensures !IsHit(old(cache.entries), matchId) ==>
        && cache.requests == old(cache.requests) + [matchId]
        && (data.Ok? <==> Resolves(dataResponse))
        && (Resolves(dataResponse) ==> data == Ok(dataResponse.body.value))
      ensures data.Ok? ==>
        && graph.requests == old(graph.requests) + [GraphRequest(matchId, width, height)]
        && (GraphLoads(graphResponse) ==> graph.content == Rendered(graphResponse.body.value.graphDiv))
        && (!GraphLoads(graphResponse) ==> graph.content == LoadFailed)
        && errors == old(errors) + (if GraphLoads(graphResponse) then [] else [GraphErrorLog])
      ensures data.Err? ==>
        && graph.requests == old(graph.requests) && graph.content == old(graph.content)
        && errors == old(errors) + [DataErrorLog]
      ensures toggleListeners == old(toggleListeners) && matchRequests == old(matchRequests)
    {
      data := cache.Get(matchId, dataResponse);
      if data.Err? {
        errors := errors + [DataErrorLog];
        return;
      }
      var logged := graph.Load(matchId, width, height, graphResponse);
      errors := errors + logged;
    }
  }

  /** Listeners accumulate: on a fresh page, `n` successful populations
      followed by one click leave the dropdown shown exactly when `n` is
      odd. */
  method ClickAfterPopulations(n: nat, sel: Selection, response: Fetched<MatchesPayload>)
    returns (shown: bool)
    requires BodyParsed(response) && PayloadGroups(response.body.value).Some?
    ensures shown <==> n % 2 == 1
  {
    var page := new MatchesDropdownPage();
    var i := 0;
    while i < n
      invariant 0 <= i <= n
      invariant page.Valid() && fresh(page.list)
      invariant page.list.display == ""
      invariant page.toggleListeners == i
    {
      page.PopulateMatchesDropdown(sel, response);
      i := i + 1;
    }
    page.ClickSelectedItem();
    ToggleTimes("", n);
    shown := IsShown(page.list.display);
  }
}
