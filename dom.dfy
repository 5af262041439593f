/** The pieces of page state that the browser scripts share: fetch outcomes,
    the `style.display` toggle, the selection event payload, the tab strip
    with its `active` markers, and the graph container. */
module Dom {
  import opened Basics

  /** What a `fetch(...)` followed by `response.json()` delivers: a network
      failure, or a response with its status and its body parsed as JSON
      (`None` when the body is not valid JSON, so `response.json()` rejects). */
  datatype Fetched<T> = NetworkError | Response(status: int, body: Option<T>)

  /** `response.ok`. */
  predicate IsOkStatus(status: int) { 200 <= status <= 299 }

  /** The detail of a `DropdownPopulated` event: the two halves of the option
      value split on '-'; the season is `undefined` when there is no '-'. */
  datatype Selection = Selection(competitionId: string, seasonId: Option<string>)

  /** An element is shown exactly when its `style.display` is `'block'`. */
  predicate IsShown(display: string) { display == "block" }

  /** `el.style.display = el.style.display === 'block' ? 'none' : 'block'`. */
  function Toggle(display: string): (r: string)
    ensures IsShown(r) <==> !IsShown(display)
    ensures r == "block" || r == "none"
  {
    if display == "block" then "none" else "block"
  }

  /** Applying the toggle `n` times flips visibility exactly when `n` is odd. */
  lemma {:induction false} ToggleTimes(display: string, n: nat)
    ensures IsShown(ToggleN(display, n)) <==> (IsShown(display) != (n % 2 == 1))
  {
    if n > 0 {
      ToggleTimes(display, n - 1);
    }
  }

  function ToggleN(display: string, n: nat): string {
    if n == 0 then display else Toggle(ToggleN(display, n - 1))
  }

  /** `document.getElementById(id)`: the first element in document order with
      that id. */
  function FirstIndex(ids: seq<string>, id: string): (r: Option<nat>)
    ensures r.Some? ==>
      && r.value < |ids| && ids[r.value] == id
      && forall j :: 0 <= j < r.value ==> ids[j] != id
    ensures r.None? ==> forall j :: 0 <= j < |ids| ==> ids[j] != id
  {
    if ids == [] then None
    else if ids[0] == id then Some(0)
    else
      var r := FirstIndex(ids[1..], id);
      if r.Some? then Some(r.value + 1) else None
  }

  /** A row of tab controls and the content panels they show. Each control and
      each panel carries an `active` class or not. */
  class TabStrip {
    var buttons: seq<bool>
    var panelIds: seq<string>
    var panels: seq<bool>

    ghost predicate Valid()
      reads this
    {
      |panels| == |panelIds|
    }

    constructor(buttonCount: nat, ids: seq<string>)
      ensures Valid()
      ensures buttons == seq(buttonCount, _ => false)
      ensures panelIds == ids && panels == seq(|ids|, _ => false)
    {
      buttons := seq(buttonCount, _ => false);
      panelIds := ids;
      panels := seq(|ids|, _ => false);
    }

    /** `buttons.forEach(b => b.classList.remove('active'))`. */
    method DeactivateButtons()
      modifies this
      ensures |buttons| == |old(buttons)| && forall j :: 0 <= j < |buttons| ==> !buttons[j]
      ensures panelIds == old(panelIds) && panels == old(panels)
    {
      var i := 0;
      while i < |buttons|
        invariant 0 <= i <= |buttons| == |old(buttons)|
        invariant forall j :: 0 <= j < i ==> !buttons[j]
        invariant panelIds == old(panelIds) && panels == old(panels)
      {
        buttons := buttons[i := false];
        i := i + 1;
      }
    }

    /** `panels.forEach(p => p.classList.remove('active'))`. */
    method DeactivatePanels()
      modifies this
      ensures |panels| == |old(panels)| && forall j :: 0 <= j < |panels| ==> !panels[j]
      ensures panelIds == old(panelIds) && buttons == old(buttons)
    {
      var i := 0;
      while i < |panels|
        invariant 0 <= i <= |panels| == |old(panels)|
        invariant forall j :: 0 <= j < i ==> !panels[j]
        invariant panelIds == old(panelIds) && buttons == old(buttons)
      {
        panels := panels[i := false];
        i := i + 1;
      }
    }
  }

  /** The body of `/fetch_match_graph`: `{graph_div: html}`. */
  datatype GraphPayload = GraphPayload(graphDiv: string)

  datatype GraphContent =
    | Blank                 // whatever the markup holds before any script ran
    | Prompt                // "Please select a match to view its graph."
    | Rendered(html: string)
    | LoadFailed            // "Error loading match graph"

  datatype GraphRequest = GraphRequest(matchId: nat, width: int, height: int)

  /** A graph response that is fetched and parses as JSON. */
  predicate GraphLoads(response: Fetched<GraphPayload>) {
    response.Response? && response.body.Some?
  }

  /** The messages the match handlers and `getMatchGraph` write with
      `console.error`. */
  const DataErrorLog := "Error fetching match data"
  const GraphErrorLog := "Error fetching match graph"

  /** The `match-graph-container` element and the requests made for it. */
  class GraphPanel {
    var content: GraphContent
    var requests: seq<GraphRequest>

    constructor()
      ensures content == Blank && requests == []
    {
      content := Blank;
      requests := [];
    }

    /** `getMatchGraph(match_id)`: posts the id with the container's current
        size, then shows the returned fragment, or logs "Error fetching match
        graph" and shows the fixed error text when the request or the JSON
        parse fails. The response status is not consulted. `logged` is what
        the call writes to the console. */
    method Load(matchId: nat, width: int, height: int, response: Fetched<GraphPayload>)
      returns (logged: seq<string>)
      modifies this
      ensures requests == old(requests) + [GraphRequest(matchId, width, height)]
      ensures GraphLoads(response) ==>
        content == Rendered(response.body.value.graphDiv) && logged == []
      ensures !GraphLoads(response) ==>
        content == LoadFailed && logged == [GraphErrorLog]
    {
      requests := requests + [GraphRequest(matchId, width, height)];
      if response.Response? && response.body.Some? {
        content := Rendered(response.body.value.graphDiv);
        logged := [];
      } else {
        content := LoadFailed;
        logged := [GraphErrorLog];
      }
    }
  }
}
