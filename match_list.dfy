/** The match dropdown shared by both drafts of the match scripts: grouping the
    options of `/fetch_matches` by `competition_stage` with `Array.reduce` into
    a plain object, listing the groups in `Object.entries` order, and the
    rendered list with its stage toggles and match entries. */
module MatchList {
  import opened Basics
  import opened Seqs
  import opened Groups
  import opened Dom

  /** The `competition_stage` field of an option as JSON delivers it. */
  datatype StageField = Missing | Null | Text(name: string)

  /** One element of the `/fetch_matches` array. */
  datatype MatchItem = MatchItem(stage: StageField, value: nat, text: string)

  /** What the reduce keeps of an item: `{ value, text }`. */
  datatype MatchEntry = MatchEntry(value: nat, text: string)

  /** The parsed body of `/fetch_matches`: an array, or anything else (on which
      `data.reduce` is not a function). */
  datatype MatchesPayload = NotAnArray | Items(items: seq<MatchItem>)

  type StageGroup = Group<string, MatchEntry>

  /** The property key `groups[competition_stage]` uses: the field converted to
      a string, so a missing field becomes "undefined". */
  function StageKey(f: StageField): string {
    match f
    case Missing => "undefined"
    case Null => "null"
    case Text(name) => name
  }

  /** Keys that a fresh `{}` already answers through `Object.prototype`. For
      these `!groups[key]` is false, no list is created, and `.push` throws. */
  const InheritedKeys: set<string> := {
    "constructor", "hasOwnProperty", "isPrototypeOf", "propertyIsEnumerable",
    "toLocaleString", "toString", "valueOf", "__proto__", "__defineGetter__",
    "__defineSetter__", "__lookupGetter__", "__lookupSetter__"
  }

  function Entry(item: MatchItem): MatchEntry {
    MatchEntry(item.value, item.text)
  }

  /** The `{ value, text }` entry of every item, in order. */
  function Entries(items: seq<MatchItem>): (r: seq<MatchEntry>)
    ensures |r| == |items|
    ensures forall i :: 0 <= i < |items| ==> r[i] == MatchEntry(items[i].value, items[i].text)
  {
    if items == [] then [] else Entries(items[..|items| - 1]) + [Entry(items[|items| - 1])]
  }

  function StagePairs(items: seq<MatchItem>): (r: seq<(string, MatchEntry)>)
    ensures |r| == |items|
  {
    if items == [] then []
    else
      var last := items[|items| - 1];
      StagePairs(items[..|items| - 1]) + [(StageKey(last.stage), Entry(last))]
  }

  lemma {:induction false} StagePairsParts(items: seq<MatchItem>)
    ensures Seconds(StagePairs(items)) == Entries(items)
    ensures forall i :: 0 <= i < |items| ==> Firsts(StagePairs(items))[i] == StageKey(items[i].stage)
  {
    if items != [] {
      var p := items[..|items| - 1];
      StagePairsParts(p);
      assert StagePairs(items)[..|items| - 1] == StagePairs(p);
    }
  }

  /** A canonical decimal string for an integer below 2^32 - 1: the keys an
      ordinary object lists first, in ascending numeric order. */
  predicate IsArrayIndex(k: string) {
    && |k| >= 1
    && (forall i :: 0 <= i < |k| ==> IsDigit(k[i]))
    && (k[0] != '0' || k == "0")
    && ParseDigits(k) < 0xFFFF_FFFF
  }

  function IndexValue(k: string): nat {
    if forall i :: 0 <= i < |k| ==> IsDigit(k[i]) then ParseDigits(k) else 0
  }

  predicate IsIndexGroup(g: StageGroup) { IsArrayIndex(g.key) }

  predicate SortedByIndex(gs: seq<StageGroup>) {
    forall i, j :: 0 <= i < j < |gs| ==> IndexValue(gs[i].key) <= IndexValue(gs[j].key)
  }

  function InsertByIndex(g: StageGroup, s: seq<StageGroup>): (r: seq<StageGroup>)
    ensures |r| == |s| + 1
    ensures multiset(r) == multiset(s) + multiset{g}
  {
    if s == [] then [g]
    else if IndexValue(g.key) <= IndexValue(s[0].key) then [g] + s
    else
      assert s == [s[0]] + s[1..];
      [s[0]] + InsertByIndex(g, s[1..])
  }

  lemma {:induction false} InsertSorted(g: StageGroup, s: seq<StageGroup>)
    requires SortedByIndex(s)
    ensures SortedByIndex(InsertByIndex(g, s))
  {
    if s != [] && IndexValue(g.key) > IndexValue(s[0].key) {
      var t := InsertByIndex(g, s[1..]);
      InsertSorted(g, s[1..]);
      forall j | 0 <= j < |t| ensures IndexValue(s[0].key) <= IndexValue(t[j].key) {
        assert t[j] in multiset(t);
        if t[j] != g {
          assert t[j] in multiset(s[1..]);
          var k :| 0 <= k < |s[1..]| && s[1..][k] == t[j];
          assert s[k + 1] == t[j];
        }
      }
    }
  }

  function SortByIndex(gs: seq<StageGroup>): (r: seq<StageGroup>)
    ensures |r| == |gs|
    ensures multiset(r) == multiset(gs)
  {
    if gs == [] then []
    else
      assert gs == gs[..|gs| - 1] + [gs[|gs| - 1]];
      InsertByIndex(gs[|gs| - 1], SortByIndex(gs[..|gs| - 1]))
  }

  lemma {:induction false} SortSorted(gs: seq<StageGroup>)
    ensures SortedByIndex(SortByIndex(gs))
  {
    if gs != [] {
      SortSorted(gs[..|gs| - 1]);
      InsertSorted(gs[|gs| - 1], SortByIndex(gs[..|gs| - 1]));
    }
  }

  /** `Object.entries(groups)`: array-index keys first in ascending numeric
      order, then every other key in insertion order. */
  function ObjectEntries(gs: seq<StageGroup>): seq<StageGroup> {
    SortByIndex(Filter(gs, IsIndexGroup)) + Reject(gs, IsIndexGroup)
  }

  /** `data.reduce` over the options, one step per option: the step looks up
      `groups[key]`, creates the list when the lookup is falsy and pushes the
      entry; `None` once a step has thrown, which happens when the key is
      inherited from `Object.prototype` (the lookup finds a function, no list
      is created and `.push` is not a function of it). */
  function ReduceStages(items: seq<MatchItem>): Option<seq<StageGroup>> {
    if items == [] then Some([])
    else
      var last := items[|items| - 1];
      var key := StageKey(last.stage);
      match ReduceStages(items[..|items| - 1])
      case None => None
      case Some(groups) => if key in InheritedKeys then None else Some(Add(groups, key, Entry(last)))
  }

  /** The reduce throws exactly when some option has an inherited stage key;
      otherwise it builds the groups of the stage/entry pairs. */
  lemma {:induction false} ReduceStagesSpec(items: seq<MatchItem>)
    ensures ReduceStages(items).None? <==> exists i :: 0 <= i < |items| && StageKey(items[i].stage) in InheritedKeys
    ensures ReduceStages(items).Some? ==> ReduceStages(items).value == GroupPairs(StagePairs(items))
  {
    if items != [] {
      var init := items[..|items| - 1];
      ReduceStagesSpec(init);
      if ReduceStages(init).None? {
        var i :| 0 <= i < |init| && StageKey(init[i].stage) in InheritedKeys;
        assert items[i] == init[i];
      } else {
        forall i | 0 <= i < |init| ensures StageKey(items[i].stage) !in InheritedKeys {
          assert items[i] == init[i];
        }
      }
    }
  }

  /** The reduce followed by `Object.entries`; `None` when the reduce throws. */
  function GroupByStage(items: seq<MatchItem>): (r: Option<seq<StageGroup>>)
    ensures r.None? <==> exists i :: 0 <= i < |items| && StageKey(items[i].stage) in InheritedKeys
    ensures r.Some? ==> r.value == ObjectEntries(GroupPairs(StagePairs(items)))
  {
    ReduceStagesSpec(items);
    match ReduceStages(items)
    case None => None
    case Some(groups) => Some(ObjectEntries(groups))
  }

  lemma {:induction false} FlattenInsert(g: StageGroup, s: seq<StageGroup>)
    ensures multiset(Flatten(InsertByIndex(g, s))) == multiset(g.items) + multiset(Flatten(s))
  {
    if s != [] && IndexValue(g.key) > IndexValue(s[0].key) {
      FlattenInsert(g, s[1..]);
    }
  }

  lemma {:induction false} FlattenSort(gs: seq<StageGroup>)
    ensures multiset(Flatten(SortByIndex(gs))) == multiset(Flatten(gs))
  {
    if gs != [] {
      var p, g := gs[..|gs| - 1], gs[|gs| - 1];
      FlattenSort(p);
      FlattenInsert(g, SortByIndex(p));
      FlattenLast(gs);
    }
  }

  lemma FlattenLast(gs: seq<StageGroup>)
    requires gs != []
    ensures Flatten(gs) == Flatten(gs[..|gs| - 1]) + gs[|gs| - 1].items
  {
    var p, g := gs[..|gs| - 1], gs[|gs| - 1];
    assert gs == p + [g];
    FlattenAppend(p, [g]);
    assert Flatten([g]) == g.items + Flatten([g][1..]);
  }

  lemma {:induction false} FlattenPartition(gs: seq<StageGroup>)
    ensures multiset(Flatten(Filter(gs, IsIndexGroup))) + multiset(Flatten(Reject(gs, IsIndexGroup)))
      == multiset(Flatten(gs))
  {
    if gs != [] {
      var p, g := gs[..|gs| - 1], gs[|gs| - 1];
      FlattenPartition(p);
      FlattenLast(gs);
      if IsIndexGroup(g) {
        assert Filter(gs, IsIndexGroup) == Filter(p, IsIndexGroup) + [g];
        assert Reject(gs, IsIndexGroup) == Reject(p, IsIndexGroup);
        FlattenLast(Filter(gs, IsIndexGroup));
      } else {
        assert Filter(gs, IsIndexGroup) == Filter(p, IsIndexGroup);
        assert Reject(gs, IsIndexGroup) == Reject(p, IsIndexGroup) + [g];
        FlattenLast(Reject(gs, IsIndexGroup));
      }
    }
  }

  lemma NoIndexKeys(gs: seq<StageGroup>)
    requires forall i :: 0 <= i < |gs| ==> !IsArrayIndex(gs[i].key)
    ensures ObjectEntries(gs) == gs
  {
    FilterNone(gs, IsIndexGroup);
  }

  /** `Object.entries` reorders the groups without losing or duplicating any:
      the same groups, and the same matches, come out. */
  lemma ObjectEntriesPermutes(gs: seq<StageGroup>)
    ensures multiset(ObjectEntries(gs)) == multiset(gs)
    ensures multiset(Flatten(ObjectEntries(gs))) == multiset(Flatten(gs))
  {
    var f, r := Filter(gs, IsIndexGroup), Reject(gs, IsIndexGroup);
    FilterPartition(gs, IsIndexGroup);
    FlattenAppend(SortByIndex(f), r);
    FlattenSort(f);
    FlattenPartition(gs);
  }

  /** Array-index keys come first in ascending numeric order, and the other
      groups follow in insertion order. */
  lemma ObjectEntriesOrder(gs: seq<StageGroup>)
    ensures var n := |Filter(gs, IsIndexGroup)|;
      && SortedByIndex(ObjectEntries(gs)[..n])
      && (forall i :: 0 <= i < n ==> IsArrayIndex(ObjectEntries(gs)[i].key))
      && ObjectEntries(gs)[n..] == Reject(gs, IsIndexGroup)
  {
    var f := Filter(gs, IsIndexGroup);
    var sorted := SortByIndex(f);
    SortSorted(f);
    var e := ObjectEntries(gs);
    assert e[..|f|] == sorted;
    forall i | 0 <= i < |f| ensures IsArrayIndex(e[i].key) {
      assert sorted[i] in multiset(f);
      var k :| 0 <= k < |f| && f[k] == sorted[i];
    }
  }

  lemma {:induction false} GroupPairsSingleKey(ps: seq<(string, MatchEntry)>, k: string)
    requires |ps| > 0 && forall i :: 0 <= i < |ps| ==> ps[i].0 == k
    ensures GroupPairs(ps) == [Group(k, Seconds(ps))]
  {
    var p, v := ps[..|ps| - 1], ps[|ps| - 1].1;
    if |ps| == 1 {
      assert p == [];
      assert GroupPairs(p) == [] && Seconds(p) == [];
      assert ps[0].0 == k;
      assert GroupPairs(ps) == Add([], k, v) == [Group(k, [v])];
      assert Seconds(ps) == Seconds(p) + [v] == [v];
    } else {
      GroupPairsSingleKey(p, k);
      var g := Group(k, Seconds(p));
      assert GroupPairs(ps) == Add([g], k, v);
      assert Add([g], k, v) == [Group(k, Seconds(p) + [v])] + [g][1..];
      assert Seconds(ps) == Seconds(p) + [v];
    }
  }

  /** Every match is rendered exactly once: the groups together hold exactly
      the entries of the response. */
  lemma GroupByStageKeepsMatches(items: seq<MatchItem>)
    requires GroupByStage(items).Some?
    ensures multiset(Flatten(GroupByStage(items).value)) == multiset(Entries(items))
  {
    var ps := StagePairs(items);
    GroupPairsSpec(ps);
    StagePairsParts(items);
    ObjectEntriesPermutes(GroupPairs(ps));
  }

  /** Each stage group lists exactly the matches of its stage, in response
      order. */
  lemma GroupByStageGroupsByKey(items: seq<MatchItem>)
    requires GroupByStage(items).Some?
    ensures var gs := GroupByStage(items).value;
      forall i :: 0 <= i < |gs| ==> gs[i].items == ValuesFor(StagePairs(items), gs[i].key)
  {
    var ps := StagePairs(items);
    var inserted := GroupPairs(ps);
    var gs := GroupByStage(items).value;
    assert gs == ObjectEntries(inserted);
    ObjectEntriesPermutes(inserted);
    forall i | 0 <= i < |gs| ensures gs[i].items == ValuesFor(ps, gs[i].key) {
      assert gs[i] in multiset(inserted);
      var j :| 0 <= j < |inserted| && inserted[j] == gs[i];
      GroupItems(ps, j);
    }
  }

  /** When no stage name is an array index, the stages appear in the order
      they are first met in the response. */
  lemma GroupByStageOrder(items: seq<MatchItem>)
    requires GroupByStage(items).Some?
    requires forall i :: 0 <= i < |items| ==> !IsArrayIndex(StageKey(items[i].stage))
    ensures Keys(GroupByStage(items).value) == Distinct(Firsts(StagePairs(items)))
  {
    var ps := StagePairs(items);
    var inserted := GroupPairs(ps);
    StageFirstsNotIndex(items);
    GroupPairsKeys(ps);
    KeysAmongFirsts(inserted, Firsts(ps));
    NoIndexKeys(inserted);
  }

  lemma StageFirstsNotIndex(items: seq<MatchItem>)
    requires forall i :: 0 <= i < |items| ==> !IsArrayIndex(StageKey(items[i].stage))
    ensures forall j :: 0 <= j < |Firsts(StagePairs(items))| ==> !IsArrayIndex(Firsts(StagePairs(items))[j])
  {
    StagePairsParts(items);
  }

  lemma KeysAmongFirsts(gs: seq<StageGroup>, firsts: seq<string>)
    requires Keys(gs) == Distinct(firsts)
    requires forall j :: 0 <= j < |firsts| ==> !IsArrayIndex(firsts[j])
    ensures forall i :: 0 <= i < |gs| ==> !IsArrayIndex(gs[i].key)
  {
    forall i | 0 <= i < |gs| ensures !IsArrayIndex(gs[i].key) {
      KeyAt(gs, i);
      assert Keys(gs)[i] in firsts;
    }
  }

  /** The server's `/fetch_matches` sends `{value, text}` without any
      `competition_stage`: every option then lands, in response order, in the
      single group "undefined". */
  lemma {:induction false} StagelessItemsGroupUnderUndefined(items: seq<MatchItem>)
    requires |items| > 0
    requires forall i :: 0 <= i < |items| ==> items[i].stage == Missing
    ensures GroupByStage(items) == Some([Group("undefined", Entries(items))])
  {
    var ps := StagePairs(items);
    StagePairsParts(items);
    forall i | 0 <= i < |ps| ensures ps[i].0 == "undefined" {
      FirstsAt(ps, i);
    }
    GroupPairsSingleKey(ps, "undefined");
    var g := Group("undefined", Entries(items));
    assert "undefined" !in InheritedKeys;
    assert GroupByStage(items) == Some(ObjectEntries([g]));
    assert !IsArrayIndex("undefined") by {
      assert !IsDigit("undefined"[0]);
    }
    NoIndexKeys([g]);
  }

  /** `data.reduce(...)` then `Object.entries(...)` on a parsed body: `None`
      when the reduce throws, because the body is not an array or because a
      stage key is inherited. */
  function PayloadGroups(payload: MatchesPayload): (r: Option<seq<StageGroup>>)
    ensures r.Some? <==>
      (payload.Items? && forall i :: 0 <= i < |payload.items| ==> StageKey(payload.items[i].stage) !in InheritedKeys)
    ensures r.Some? ==> r.value == ObjectEntries(GroupPairs(StagePairs(payload.items)))
    ensures r.Some? ==> multiset(Flatten(r.value)) == multiset(Entries(payload.items))
  {
    match payload
    case NotAnArray => None
    case Items(items) =>
      var groups := GroupByStage(items);
      if groups.Some? then GroupByStageKeepsMatches(items); groups else groups
  }

  /** `fetch(...).then(response => response.json())` delivered a body; the
      status is not consulted. */
  predicate BodyParsed(response: Fetched<MatchesPayload>) {
    response.Response? && response.body.Some?
  }

  /** What `matchDropdown` holds. */
  datatype ListContent =
    | Initial                       // the markup before any script ran
    | Loading                       // "Loading matches..."
    | LoadError                     // "Error loading matches. Please try again."
    | Cleared                       // emptied by `innerHTML = ''`
    | Stages(groups: seq<StageGroup>)

  /** The rendered dropdown: its content, its own visibility, the visibility of
      each stage's list, the selected-match selectedText, and the match ids sent with
      `MatchDropdownPopulated`, in dispatch order. */
  class DropdownList {
    var content: ListContent
    var display: string
    var stageDisplay: seq<string>
    var selectedText: string
    var chosen: seq<nat>

    ghost predicate Valid()
      reads this
    {
      content.Stages? ==> |stageDisplay| == |content.groups|
    }

    constructor()
      ensures Valid()
      ensures content == Initial && display == "" && stageDisplay == [] && selectedText == "" && chosen == []
    {
      content := Initial;
      display := "";
      stageDisplay := [];
      selectedText := "";
      chosen := [];
    }

    /** Appends a header and a fresh list per group; a fresh list has no
        inline display. */
    method ShowStages(gs: seq<StageGroup>)
      modifies this
      ensures Valid()
      ensures content == Stages(gs) && stageDisplay == seq(|gs|, _ => "")
      ensures display == old(display) && selectedText == old(selectedText) && chosen == old(chosen)
    {
      content := Stages(gs);
      stageDisplay := seq(|gs|, _ => "");
    }

    /** A click on stage header `i` toggles that stage's list and no other. */
    method ClickStage(i: nat)
      requires Valid() && content.Stages? && i < |content.groups|
      modifies this
      ensures Valid()
      ensures stageDisplay == old(stageDisplay)[i := Toggle(old(stageDisplay)[i])]
      ensures IsShown(stageDisplay[i]) <==> !IsShown(old(stageDisplay)[i])
      ensures content == old(content) && display == old(display)
      ensures selectedText == old(selectedText) && chosen == old(chosen)
    {
      stageDisplay := stageDisplay[i := Toggle(stageDisplay[i])];
    }

    /** A click on match `j` of stage `i`: the selectedText shows its text, the
        dropdown collapses, and exactly one event carries its id. */
    method ClickMatch(i: nat, j: nat)
      requires Valid() && content.Stages? && i < |content.groups| && j < |content.groups[i].items|
      modifies this
      ensures Valid()
      ensures selectedText == old(content).groups[i].items[j].text
      ensures display == "none"
      ensures chosen == old(chosen) + [old(content).groups[i].items[j].value]
      ensures content == old(content) && stageDisplay == old(stageDisplay)
    {
      var entry := content.groups[i].items[j];
      selectedText := entry.text;
      display := "none";
      chosen := chosen + [entry.value];
    }
  }
}
