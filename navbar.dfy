/** The navigation bar script: the competition dropdown whose option values
    encode `competition_id-season_id`, the `DropdownPopulated` events it
    dispatches, and the three coupled fields of the sidebar toggle. */
module Navbar {
  import opened Basics
  import opened Seqs
  import opened Dom

  /** One record of `/api/get_competitions`. */
  datatype CompetitionRecord = CompetitionRecord(competitionId: nat, seasonId: nat, displayKey: string)

  /** The parsed body: an array of records, or anything else (on which
      `data.forEach` is not a function). */
  datatype CompetitionsPayload = NotAList | Records(records: seq<CompetitionRecord>)

  datatype DropdownOption = DropdownOption(value: string, text: string)

  /** `${competition_id}-${season_id}` on string ids. */
  function Encode(competitionId: string, seasonId: string): string {
    competitionId + "-" + seasonId
  }

  /** `value.split('-')[0]` and `value.split('-')[1]`, the second
      `undefined` when there is no second part. Read off the dashes: without
      one the competition is the whole value and the season is missing;
      otherwise the competition is the text before the first dash and the
      season the text after it up to the next dash. */
  function Decode(value: string): (r: Selection)
    ensures FirstOccurrence(value, "-").None? ==> r == Selection(value, None)
    ensures FirstOccurrence(value, "-").Some? ==>
      var k := FirstOccurrence(value, "-").value;
      r == Selection(value[..k], Some(PrefixBefore(value[k + 1..], "-")))
    ensures r.seasonId.None? <==> !Contains(value, "-")
  {
    var parts := Split(value, "-");
    var selection := Selection(parts[0], if |parts| >= 2 then Some(parts[1]) else None);
    if FirstOccurrence(value, "-").None? then
      SplitWithoutSeparator(value, "-"); selection
    else
      SplitAtOccurrence(value, "-", FirstOccurrence(value, "-").value); selection
  }

  /** The option for a record: its encoded ids and its display key. */
  function OptionFor(record: CompetitionRecord): DropdownOption {
    DropdownOption(Encode(NatToString(record.competitionId), NatToString(record.seasonId)), record.displayKey)
  }

  function OptionsFor(records: seq<CompetitionRecord>): (r: seq<DropdownOption>)
    ensures |r| == |records|
    ensures forall i :: 0 <= i < |records| ==> r[i] == OptionFor(records[i])
  {
    if records == [] then [] else OptionsFor(records[..|records| - 1]) + [OptionFor(records[|records| - 1])]
  }

  /** The `forEach` of `populateDropdown`: one option per record, appended
      in order after those already present. */
  method AppendOptions(present: seq<DropdownOption>, records: seq<CompetitionRecord>) returns (options: seq<DropdownOption>)
    ensures options == present + OptionsFor(records)
  {
    options := present;
    var i := 0;
    while i < |records|
      invariant 0 <= i <= |records|
      invariant options == present + OptionsFor(records[..i])
    {
      assert records[..i + 1][..i] == records[..i];
      options := options + [OptionFor(records[i])];
      i := i + 1;
    }
    assert records[..|records|] == records;
  }

  lemma NoDashInDigits(s: string)
    requires forall i :: 0 <= i < |s| ==> IsDigit(s[i])
    ensures !Contains(s, "-")
  {
    forall i: nat | i <= |s| ensures !OccursAt(s, i, "-") {
      if i + 1 <= |s| {
        assert s[i..i + 1] == [s[i]];
      }
    }
  }

  /** Decoding an encoded value gives back both ids exactly when neither
      contains '-'. */
  lemma {:induction false} DecodeEncode(competitionId: string, seasonId: string)
    requires !Contains(competitionId, "-") && !Contains(seasonId, "-")
    ensures Decode(Encode(competitionId, seasonId)) == Selection(competitionId, Some(seasonId))
  {
    forall i: nat | i < |competitionId| ensures !OccursAt(competitionId + "-", i, "-") {
      if OccursAt(competitionId + "-", i, "-") {
        assert (competitionId + "-")[i..i + 1] == competitionId[i..i + 1];
        assert OccursAt(competitionId, i, "-");
      }
    }
    SplitAfterPrefix(competitionId, "-", seasonId);
    SplitWithoutSeparator(seasonId, "-");
    assert OccursAt(Encode(competitionId, seasonId), |competitionId|, "-") by {
      assert Encode(competitionId, seasonId)[|competitionId|..|competitionId| + 1] == "-";
    }
  }

  /** The ids of a record survive the option value: decoding gives their
      decimal text, and parsing that text gives the ids back. */
  lemma RecordRoundTrip(record: CompetitionRecord)
    ensures var sel := Decode(OptionFor(record).value);
      && sel == Selection(NatToString(record.competitionId), Some(NatToString(record.seasonId)))
      && ParseDigits(sel.competitionId) == record.competitionId
      && ParseDigits(sel.seasonId.value) == record.seasonId
  {
    NoDashInDigits(NatToString(record.competitionId));
    NoDashInDigits(NatToString(record.seasonId));
    DecodeEncode(NatToString(record.competitionId), NatToString(record.seasonId));
    ParseNatToString(record.competitionId);
    ParseNatToString(record.seasonId);
  }

  /** The `#dropdown` select: its options, the selected index, the number of
      `change` listeners, the `DropdownPopulated` details dispatched so far
      and the `console.error` log. */
  class CompetitionDropdown {
    var options: seq<DropdownOption>
    var selectedIndex: int
    var changeListeners: nat
    var events: seq<Selection>
    var errors: nat

    constructor()
      ensures options == [] && selectedIndex == -1 && changeListeners == 0
      ensures events == [] && errors == 0
    {
      options := [];
      selectedIndex := -1;
      changeListeners := 0;
      events := [];
      errors := 0;
    }

    /** `populateDropdown()` with the outcome of `/api/get_competitions`. The
        options are rebuilt one per record, in order; the first is selected,
        its ids are dispatched once, and one `change` listener is added. With
        no records, reading the default option throws: no event and no
        listener. A failed fetch or parse only logs. */
    method Populate(response: Fetched<CompetitionsPayload>)
      modifies this
      ensures !(response.Response? && response.body.Some?) ==>
        && options == old(options) && selectedIndex == old(selectedIndex)
        && changeListeners == old(changeListeners) && events == old(events)
        && errors == old(errors) + 1
      ensures response.Response? && response.body == Some(NotAList) ==>
        && options == [] && selectedIndex == -1
        && changeListeners == old(changeListeners) && events == old(events)
        && errors == old(errors) + 1
      ensures response.Response? && response.body.Some? && response.body.value.Records? ==>
        var records := response.body.value.records;
        && options == OptionsFor(records)
        && (records == [] ==>
              && selectedIndex == -1 && changeListeners == old(changeListeners)
              && events == old(events) && errors == old(errors) + 1)
        && (records != [] ==>
              && selectedIndex == 0 && changeListeners == old(changeListeners) + 1
              && events == old(events) + [Decode(OptionFor(records[0]).value)]
              && errors == old(errors))
    {
      if !(response.Response? && response.body.Some?) {
        errors := errors + 1;
        return;
      }
      options := [];
      selectedIndex := -1;
      if response.body.value.NotAList? {
        errors := errors + 1;
        return;
      }
      options := AppendOptions(options, response.body.value.records);
      if options == [] {
        errors := errors + 1;
        return;
      }
      selectedIndex := 0;
      events := events + [Decode(options[0].value)];
      changeListeners := changeListeners + 1;
    }

    /** The user picks option `index`: every `change` listener dispatches the
        ids of that option once. */
    method Change(index: nat)
      requires index < |options|
      modifies this
      ensures selectedIndex == index
      ensures var picked := Decode(old(options)[index].value);
        events == old(events) + seq(changeListeners, _ => picked)
      ensures options == old(options) && changeListeners == old(changeListeners)
      ensures errors == old(errors)
    {
      selectedIndex := index;
      var picked := Decode(options[index].value);
      var i := 0;
      while i < changeListeners
        invariant 0 <= i <= changeListeners
        invariant events == old(events) + seq(i, _ => picked)
        invariant options == old(options) && selectedIndex == index && errors == old(errors)
        invariant changeListeners == old(changeListeners)
      {
        events := events + [picked];
        i := i + 1;
      }
    }
  }

  /** Page load followed by one change: exactly two events, the first with the
      decimal ids of the first record and the second with those of the chosen
      one (which `RecordRoundTrip` turns back into the numbers). */
  method PopulateThenChange(records: seq<CompetitionRecord>, chosen: nat)
    returns (events: seq<Selection>)
    requires chosen < |records|
    ensures events == [
      Selection(NatToString(records[0].competitionId), Some(NatToString(records[0].seasonId))),
      Selection(NatToString(records[chosen].competitionId), Some(NatToString(records[chosen].seasonId)))]
  {
    var dropdown := new CompetitionDropdown();
    dropdown.Populate(Response(200, Some(Records(records))));
    assert dropdown.options == OptionsFor(records);
    dropdown.Change(chosen);
    events := dropdown.events;
    RecordRoundTrip(records[0]);
    RecordRoundTrip(records[chosen]);
  }

  /** `#mySidebar`'s width, `#main`'s left margin, and whether `#toggleArrow`
      has the `open` class. */
  class Sidebar {
    var width: string
    var marginLeft: string
    var arrowOpen: bool

    /** The sidebar and the content beside it agree, and the arrow shows the
        expanded state. */
    predicate Coupled()
      reads this
    {
      marginLeft == width && (arrowOpen <==> width == "250px") && (width == "250px" || width == "0")
    }

    constructor(width: string, marginLeft: string, arrowOpen: bool)
      ensures this.width == width && this.marginLeft == marginLeft && this.arrowOpen == arrowOpen
    {
      this.width := width;
      this.marginLeft := marginLeft;
      this.arrowOpen := arrowOpen;
    }

    /** `toggleSidebar()`: collapse from exactly "250px", expand from any other
        width; either way the three fields end up coupled. */
    method Toggle()
      modifies this
      ensures old(width) == "250px" ==> width == "0" && marginLeft == "0" && !arrowOpen
      ensures old(width) != "250px" ==> width == "250px" && marginLeft == "250px" && arrowOpen
      ensures Coupled()
    {
      if width == "250px" {
        width := "0";
        marginLeft := "0";
        arrowOpen := false;
      } else {
        width := "250px";
        marginLeft := "250px";
        arrowOpen := true;
      }
    }
  }

  /** `n` toggles from any starting width: afterwards the fields are coupled
      (when `n >= 1`), and the sidebar is expanded exactly when it started
      expanded and `n` is even, or started otherwise and `n` is odd. */
  method ToggleRepeatedly(initialWidth: string, n: nat) returns (expanded: bool, coupled: bool)
    ensures expanded <==> ((initialWidth == "250px") == (n % 2 == 0))
    ensures n >= 1 ==> coupled
  {
    var sidebar := new Sidebar(initialWidth, "", false);
    var i := 0;
    while i < n
      invariant 0 <= i <= n
      invariant (sidebar.width == "250px") <==> ((initialWidth == "250px") == (i % 2 == 0))
      invariant i >= 1 ==> sidebar.Coupled()
    {
      sidebar.Toggle();
      i := i + 1;
    }
    expanded := sidebar.width == "250px";
    coupled := sidebar.Coupled();
  }
}
