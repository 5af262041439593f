# Football analytics dashboard: verified model of the core

This project is a Dafny model of the core of a football match analytics
dashboard. A user picks a competition and season from a sidebar. The page
then lists the season's matches grouped by competition stage. Picking a
match loads its event rows and draws a chart of cumulative expected goals
and goal totals, and per-team tabs show the squad and a summary. The server
prepares this data from event tables.

The model covers the browser scripts and the server utilities that carry
this logic:

- `Dom` holds the page elements the scripts change: the `style.display`
  toggle, the tab strip's `active` classes, and the graph container.
- `MatchCache` is the `matchCache` dictionary that `getMatchData` reads and
  fills.
- `MatchList` covers the grouping of a match list by competition stage in
  both dropdown scripts. This includes JavaScript's `Object.entries` key
  order and the clickable two-level list.
- `MatchAnalysis` and `MatchesDropdown` are the two page scripts: each
  script's population of the match dropdown, its handler for a chosen match,
  and its tab switching.
- `Navbar` is the competition/season option list, the `-` encoding of an
  option's value, and the collapsible sidebar.
- `SwitchTab` is the team tabs and the `" vs "` split of the selected match
  label.
- `TeamAnalytics` covers three operations: sorting lineup players into four
  squad categories, the running goal count over a team's shots, and the
  five-row team summary.
- `MatchAnalysisUtils` covers the goal and assist lists with their ⚽/👟
  strings, the match overview and the match statistics.
- `Preprocess` is the reshaping of metric columns for plotting, and the
  extension of a series to minute 90.
- `WiderUtils` is the match clock computed from each event's timestamp and
  period.
- `NonFunctionalUtils` is the mapping of event files to team names, and the
  mapping of competitions to match ids built while walking a directory of
  JSON files.
- `PlotlyViz` is the chart: one line per team, plus the extra-time and
  penalties bands.
- `Basics`, `Seqs` and `Groups` are shared definitions. `Groups` is the
  insertion-ordered "dictionary of lists" that several of these operations
  build.

DataFrames are sequences of records. A JavaScript handler that awaits a
request takes the request's outcome as a parameter and runs to completion.
Where the source mutates state in place (the cache, the DOM elements, the
lists a loop fills), the model is a class or a method with a loop. Each of
these is proved against a specification function, and the properties the
code promises are proved as lemmas about that function.

Two points where the code's behaviour differs from the dashboard's
intended description are modelled as the code behaves:

- Stages are not always listed in first-seen order. `Object.entries` lists
  array-index keys (a stage named `"1"`, say) first, in ascending numeric
  order (`MatchList.ObjectEntriesOrder`).
- A change of competition is not always announced once. It is dispatched
  once per registered listener, and in `matches_dropdown.js` a click runs
  every listener that earlier populations added
  (`MatchesDropdown.ClickAfterPopulations`).

## Model

| member | source | states |
|---|---|---|
| Dom.Toggle | static/js/match_analysis.js:46-49 | the new `style.display` is "block" or "none" and is shown exactly when the old one was not |
| Dom.ToggleTimes | static/js/matches_dropdown.js:87-90 | `n` toggles leave the element shown exactly when it started shown and `n` is even, or started hidden and `n` is odd |
| Dom.FirstIndex | static/js/switch_tab.js:14 | `getElementById`: the index of the first element with the id, with no earlier match, or `None` when no element has it |
| Dom.TabStrip.DeactivateButtons | static/js/switch_tab.js:3-4 | every tab link loses `active`, the count of links is kept, the panels are untouched |
| Dom.TabStrip.DeactivatePanels | static/js/switch_tab.js:10-11 | every panel loses `active`, the count of panels is kept, the links are untouched |
| Dom.GraphPanel.Load | static/js/match_analysis.js:148-171 | `getMatchGraph` posts the id with the container's width and height; when the body parses, the container shows the returned `graph_div` and nothing is logged; otherwise, whatever the status, it shows the fixed error text and logs "Error fetching match graph" once |
| MatchCache.Cache.Get | static/js/match_analysis.js:122-146 | a truthy cached entry is returned with no request; a miss posts exactly one request and caches and returns the body only for an ok status with a parsable body, rejecting with the cache unchanged otherwise |
| MatchCache.GetTwice | static/js/matches_dropdown.js:97-122 | two lookups of one id after a successful fetch of rows issue one request in all and both return the same rows |
| MatchList.Entries | static/js/match_analysis.js:68 | one `{value, text}` entry per item, and entry i carries item i's value and text |
| MatchList.StagePairsParts | static/js/match_analysis.js:63-70 | each item contributes its stage key (a missing stage as "undefined") paired with its entry, in response order |
| MatchList.InsertSorted | static/js/match_analysis.js:73 | inserting a group into index-sorted groups keeps them sorted by numeric key |
| MatchList.SortSorted | static/js/match_analysis.js:73 | the array-index groups come out in ascending numeric order |
| MatchList.GroupByStage | static/js/match_analysis.js:63-73 | the reduce followed by `Object.entries` fails exactly when some stage key is one that `Object.prototype` already answers; otherwise it is the insertion-ordered grouping of the (stage key, entry) pairs, reordered as `Object.entries` lists keys |
| MatchList.ReduceStagesSpec | static/js/match_analysis.js:63-71 | the step-by-step reduce, whose step throws when `groups[key]` is inherited, throws exactly when some item's stage key is inherited, and otherwise builds the grouping of the (stage key, entry) pairs |
| MatchList.FlattenInsert | static/js/match_analysis.js:73 | inserting a group adds exactly its matches to the flattened list, as a multiset |
| MatchList.FlattenSort | static/js/match_analysis.js:73 | the numeric sort neither loses nor duplicates any match |
| MatchList.FlattenPartition | static/js/match_analysis.js:73 | splitting groups into index keys and other keys keeps every match exactly once |
| MatchList.NoIndexKeys | static/js/match_analysis.js:73 | with no array-index key, `Object.entries` keeps insertion order unchanged |
| MatchList.ObjectEntriesPermutes | static/js/match_analysis.js:73 | `Object.entries` returns the same groups and the same matches, only reordered |
| MatchList.ObjectEntriesOrder | static/js/match_analysis.js:73 | array-index keys come first in ascending numeric order, then the other keys in insertion order |
| MatchList.GroupPairsSingleKey | static/js/match_analysis.js:63-70 | when every item has the same key the reduce yields one group holding all entries in order |
| MatchList.GroupByStageKeepsMatches | static/js/match_analysis.js:63-113 | every match of the response is rendered exactly once across the stage groups |
| MatchList.GroupByStageGroupsByKey | static/js/match_analysis.js:63-70 | each group lists exactly the entries whose stage key is the group's key, in response order |
| MatchList.GroupByStageOrder | static/js/match_analysis.js:63-73 | with no array-index stage name, stages appear in the order they are first met in the response |
| MatchList.StagelessItemsGroupUnderUndefined | static/js/matches_dropdown.js:42-49 | items without `competition_stage` all land, in order, in the single group "undefined" |
| MatchList.PayloadGroups | static/js/matches_dropdown.js:37-51 | grouping succeeds exactly when the body is an array and no item's stage key is inherited; then the groups are the `Object.entries` listing of the grouped (stage key, entry) pairs and together hold exactly the response's entries |
| MatchList.DropdownList.ShowStages | static/js/match_analysis.js:73-113 | the dropdown holds the groups in order, each with a stage list that has no inline display |
| MatchList.DropdownList.ClickStage | static/js/match_analysis.js:105-108 | a click on one stage header toggles that stage's list and nothing else |
| MatchList.DropdownList.ClickMatch | static/js/match_analysis.js:90-99 | a click on a match shows its text, collapses the dropdown and dispatches exactly one event carrying its id |
| MatchAnalysis.Teams | static/js/match_analysis.js:14 | `data.map(item => item.team)`: one team per row, in order |
| MatchAnalysis.TeamPair | static/js/match_analysis.js:14-25 | labels exist exactly when the rows name two distinct teams; they are the first row's team and the first other team, and every row names one of them |
| MatchAnalysis.MatchAnalysisPage.PopulateMatchesDropdown | static/js/match_analysis.js:35-120 | resets the label and the graph prompt and sets the toggle handler; shows the stages when the body parses and groups, and otherwise the error text plus one logged error |
| MatchAnalysis.MatchAnalysisPage.ClickSelectedItem | static/js/match_analysis.js:46-49 | the single assigned handler toggles the dropdown once; before any population a click does nothing |
| MatchAnalysis.MatchAnalysisPage.OnMatchChosen | static/js/match_analysis.js:9-31 | the graph is requested exactly when the data resolves to rows (not on a rejection or a `null` body); labels change exactly for two teams; the log gains the team-count error when there are not two teams and the graph error when the graph body does not parse, and exactly "Error fetching match data" when no rows arrive |
| MatchAnalysis.MatchAnalysisPage.ShowTeams | static/js/match_analysis.js:16-25 | both tab labels set from `TeamPair` when there are two teams; otherwise the labels are kept and exactly "Unexpected number of unique teams in match data." is logged |
| MatchAnalysis.MatchAnalysisPage.ShowTab | static/js/match_analysis.js:173-185 | only the first panel with the id and the clicked button end up active; with no such panel the lookup throws and nothing is active |
| MatchAnalysis.ClickAfterPopulations | static/js/match_analysis.js:46-49 | the handler is reassigned, not added: after any number of populations one click shows the dropdown |
| MatchesDropdown.MatchesDropdownPage.PopulateMatchesDropdown | static/js/matches_dropdown.js:29-95 | a failed fetch or parse only logs; a parsed body empties the dropdown first, so a throwing reduce leaves it empty, and a successful one shows the stages and adds one more toggle listener |
| MatchesDropdown.MatchesDropdownPage.ClickSelectedItem | static/js/matches_dropdown.js:87-90 | a click runs every accumulated listener, toggling the display once per listener |
| MatchesDropdown.MatchesDropdownPage.OnMatchChosen | static/js/matches_dropdown.js:10-25 | the graph is requested after any resolution of the data, `null` included, and logs "Error fetching match graph" exactly when its body does not parse; a rejection requests no graph and logs exactly "Error fetching match data" |
| MatchesDropdown.ClickAfterPopulations | static/js/matches_dropdown.js:87-90 | after `n` successful populations one click leaves the dropdown shown exactly when `n` is odd |
| Navbar.Decode | static/js/navbar.js:17-18 | without a '-' the value is the competition id and the season is `undefined`; otherwise the competition id is the text before the first '-' and the season is the text after it up to the next '-' |
| Navbar.OptionsFor | static/js/navbar.js:8-13 | one option per record, in order, with value `competition_id-season_id` and the display key as text |
| Navbar.AppendOptions | static/js/navbar.js:8-13 | the loop appends exactly the options of the records, in order, after the existing ones |
| Navbar.DecodeEncode | static/js/navbar.js:10-18 | splitting an encoded value on '-' gives back both ids whenever neither contains '-' |
| Navbar.RecordRoundTrip | static/js/navbar.js:10-18 | the numeric ids of a record survive the option value: decoding gives their decimal text, and parsing that text gives the numbers back |
| Navbar.CompetitionDropdown.Populate | static/js/navbar.js:1-40 | a failed fetch only logs; a non-array body empties the options and logs; records rebuild the options in order, and a non-empty list selects the first, dispatches its ids once and adds one change listener, while an empty list throws before the event |
| Navbar.CompetitionDropdown.Change | static/js/navbar.js:23-35 | selecting an option dispatches its decoded ids once per registered change listener |
| Navbar.PopulateThenChange | static/js/navbar.js:14-35 | page load then one change gives exactly two events: the ids of the first record, then those of the chosen one |
| Navbar.Sidebar.Toggle | static/js/navbar.js:47-63 | collapses from exactly "250px" and expands from any other width; afterwards width, margin and arrow agree |
| Navbar.ToggleRepeatedly | static/js/navbar.js:47-63 | after `n >= 1` toggles the three fields agree, and the sidebar is expanded exactly when the parity of `n` and the starting width say so |
| SwitchTab.TeamsFromLabel | static/js/switch_tab.js:26-29 | labels exist exactly when the label contains " vs " once: none without an occurrence, none when another follows the first; otherwise they are the texts before and after it, which joined by " vs " give the label back |
| SwitchTab.LabelRoundTrip | static/js/switch_tab.js:26-29 | "home vs away" splits back into home and away when neither contains " vs " and home does not end in " vs" |
| SwitchTab.HomeEndingInVsSplitsWrongly | static/js/switch_tab.js:26-29 | home "Team vs" and away "B" contain no " vs " yet split into "Team" and "vs B" |
| SwitchTab.TeamTabs.OpenTab | static/js/switch_tab.js:1-18 | the clicked link is the only active link; the first panel with the id is the only active panel, and none is when no panel has it |
| SwitchTab.TeamTabs.UpdateTabLabels | static/js/switch_tab.js:21-48 | with two parts, tabs 2 and 3 get the team names as text and `data-team` and the panels read "Content for ..."; otherwise nothing changes |
| SwitchTab.SelectMatch | static/js/switch_tab.js:21-48 | selecting a server-built "home vs away" text names tab 2 after home and tab 3 after away |
| MatchAnalysisUtils.MinuteText | utils/match_analysis_utils.py:19 | `str(minute)` is a non-empty run of decimal digits |
| MatchAnalysisUtils.FirstWithId | utils/match_analysis_utils.py:21-22 | the first row whose id matches, with no earlier match, or none when no row has the id |
| MatchAnalysisUtils.Lookup | utils/match_analysis_utils.py:21-22 | `iloc[0]` finds a row exactly when the key is a pass id that some row carries; NaN and -999 never match |
| MatchAnalysisUtils.AllResolvePrefix | utils/match_analysis_utils.py:15-39 | every goal of a list resolves its assist exactly when the earlier goals do and the last one does |
| MatchAnalysisUtils.StepSpec | utils/match_analysis_utils.py:15-39 | one loop step succeeds exactly when the goal's assist lookups resolve, and then keeps each dictionary equal to the grouping of the pairs seen so far |
| MatchAnalysisUtils.TallySpec | utils/match_analysis_utils.py:15-39 | the loop raises exactly when some goal of either side looks up an assist that is not there; otherwise each dictionary maps every player, in first-credited order, to their minutes in goal order |
| MatchAnalysisUtils.TallyErrSticky | utils/match_analysis_utils.py:15-39 | once a goal has raised, later goals change nothing |
| MatchAnalysisUtils.LabelZero | utils/match_analysis_utils.py:6-7 | `home_team[0]` is the row labelled 0, and is missing (a KeyError) exactly when no row has that label |
| MatchAnalysisUtils.Primed | utils/match_analysis_utils.py:43 | one entry per minute, entry i being minute i followed by `'` |
| MatchAnalysisUtils.FormatEntries | utils/match_analysis_utils.py:42-57 | entry i is group i formatted: its primed minutes joined by single spaces, then the player, then one emoji per minute |
| MatchAnalysisUtils.GoallessWithoutLabelZero | utils/match_analysis_utils.py:5-16 | without goal rows the result is four empty lists, whatever the labels; without a row labelled 0 the KeyError happens exactly when a goal row exists |
| MatchAnalysisUtils.GoalAssistData | utils/match_analysis_utils.py:5-59 | the loop as written returns exactly the specified result: a KeyError only when at least one goal row exists and no row is labelled 0, an IndexError from a failed assist lookup, otherwise the four formatted lists of the grouped goals and assists |
| MatchAnalysisUtils.AddClean | utils/match_analysis_utils.py:17-19 | adding a digit-only minute under an emoji-free player keeps every key emoji-free and every minute digit-only |
| MatchAnalysisUtils.GroupPairsClean | utils/match_analysis_utils.py:15-39 | grouping emoji-free players with digit-only minutes gives emoji-free groups |
| MatchAnalysisUtils.GoalPairsClean | utils/match_analysis_utils.py:17-19 | the scorer pairs carry no emoji when no scorer name does |
| MatchAnalysisUtils.AssistPairsClean | utils/match_analysis_utils.py:21-26 | the assist pairs carry no emoji when no player name does |
| MatchAnalysisUtils.CountCharAbsent | utils/match_analysis_utils.py:43 | a text without the emoji counts zero of it |
| MatchAnalysisUtils.CountCharRepeat | utils/match_analysis_utils.py:43 | `emoji * n` holds exactly `n` emojis |
| MatchAnalysisUtils.PrimedJoinClean | utils/match_analysis_utils.py:43 | the joined primed minutes contain no emoji |
| MatchAnalysisUtils.EntryEmojis | utils/match_analysis_utils.py:43 | a formatted entry carries exactly one emoji per minute |
| MatchAnalysisUtils.EmojiTotalFlatten | utils/match_analysis_utils.py:42-57 | across all entries there is one emoji per stored minute |
| MatchAnalysisUtils.GroupPairsSize | utils/match_analysis_utils.py:17-19 | grouping keeps every appended minute: the groups hold as many minutes as there were pairs |
| MatchAnalysisUtils.GoalPairsCount | utils/match_analysis_utils.py:16-19 | a side's scorer pairs number that side's goals |
| MatchAnalysisUtils.GoalEmojiTotals | utils/match_analysis_utils.py:15-57 | the balls across a side's goal entries number its goals, and the boots across its assist entries number its resolved assists |
| MatchAnalysisUtils.GoalGroupsOrder | utils/match_analysis_utils.py:15-32 | scorers are listed in first-scored order and each scorer's minutes keep goal order |
| MatchAnalysisUtils.GroupsFollowPairs | utils/match_analysis_utils.py:17-19 | the keys of a grouping are the distinct players in first-seen order and each holds exactly that player's minutes |
| MatchAnalysisUtils.OtherTeamIgnored | utils/match_analysis_utils.py:16-29 | a goal by a team that is neither home nor away changes no dictionary |
| MatchAnalysisUtils.AsWrittenUnassistedGoalRaises | utils/match_analysis_utils.py:20-34 | as written, a home goal with a NaN key pass, or an away goal with -999, makes the whole computation raise |
| MatchAnalysisUtils.CorrectedRaisesOnlyOnDanglingIds | utils/match_analysis_utils.py:20-34 | with the corrected rule the computation raises exactly when a goal's key pass names an id that no row has |
| MatchAnalysisUtils.IncompleteWithinPasses | utils/match_analysis_utils.py:108-111 | incomplete passes never outnumber passes |
| MatchAnalysisUtils.SideStatsOf | utils/match_analysis_utils.py:103-113 | passes and shots are the team's rows of that type; completed passes are passes minus incomplete ones, between 0 and passes |
| MatchAnalysisUtils.MatchStats | utils/match_analysis_utils.py:100-115 | raises exactly on an empty overview; otherwise, for the home and the away team of the first row, the passes are that team's Pass rows, the shots its Shot rows, and the completed passes are the passes less those with outcome 'Incomplete', so they lie between zero and the passes |
| MatchAnalysisUtils.Zip | utils/match_analysis_utils.py:84-95 | the dictionary's keys and values are the given keys and values, in order |
| MatchAnalysisUtils.OverviewKeysDistinct | utils/match_analysis_utils.py:68-95 | the nineteen keys of the overview dictionary are pairwise distinct |
| MatchAnalysisUtils.FieldTexts | utils/match_analysis_utils.py:75 | one value per overview field, the two scores as numbers and the rest as text |
| MatchAnalysisUtils.MatchOverview | utils/match_analysis_utils.py:66-97 | under an assist rule: raises exactly on an empty overview or when the goal lists raise (their KeyError needs at least one goal row and no row labelled 0); otherwise the nine fields of the first row, then the four goal and assist lists and the six counts, under the nineteen keys in order. With the as-written rule this is the code's behaviour |
| MatchAnalysisUtils.AsWrittenOverviewRaises | utils/match_analysis_utils.py:77 | as written, the overview raises for any home goal whose key pass is NaN |
| Preprocess.AsList | utils/preprocess.py:24-26 | a single column name becomes the one-element list; a list is kept |
| Preprocess.Matched | utils/preprocess.py:32 | the matched columns are exactly the requested columns the frame has, no more than requested |
| Preprocess.Missing | utils/preprocess.py:33 | the missing columns are exactly the requested columns the frame lacks |
| Preprocess.MatchedMissingPartition | utils/preprocess.py:32-33 | every requested column is matched or missing, exactly once: the two lists together are a permutation of the request |
| Preprocess.Ununderscored | utils/preprocess.py:51 | `replace('_', ' ')` turns every underscore into a space and keeps every other character |
| Preprocess.Lowered | utils/preprocess.py:51 | every character lower-cased, length kept |
| Preprocess.Capitalized | utils/preprocess.py:51 | `capitalize()` keeps the length, upper-cases the first character and lower-cases every other one (ASCII) |
| Preprocess.MetricLabelShape | utils/preprocess.py:51 | a metric label keeps the name's length, holds no underscore, does not start with a lower-case letter and has no upper-case letter after the first |
| Preprocess.MeltColumn | utils/preprocess.py:42-47 | one melted record per row: the row's minute, the column's label and the row's value in that column |
| Preprocess.Melt | utils/preprocess.py:42-47 | the melt has one record per (column, row) pair |
| Preprocess.MeltLayout | utils/preprocess.py:42-51 | record `k * rows + i` is row `i` under column `k`, with that row's minute and the column's readable label |
| Preprocess.MeltIndexed | utils/preprocess.py:42-51 | every record of the melt, read back from its position alone, is row `j % rows` under column `j / rows` |
| Preprocess.MeltAllIndexed | utils/preprocess.py:42-51 | the melt has one record per (column, row) pair, each laid out as its position says |
| Preprocess.PreparePlotData | utils/preprocess.py:10-54 | the empty frame exactly when no requested column exists; when some exists, a ValueError exactly when `value_name` is already a column label (pandas 2 `melt` checks this first), else a KeyError exactly when `minutes` is missing; otherwise, under `value_name`, one record per (matched column, row) pair, record `j` being row `j % rows` under matched column `j / rows` with that row's minute and the column's readable label |
| Preprocess.CoerceMinutes | utils/preprocess.py:84 | every row keeps its cells except `minutes`, which becomes the coerced integer |
| Preprocess.CoerceIdempotent | utils/preprocess.py:84 | after coercion every minute is an integer cell, and coercing again changes nothing |
| Preprocess.MaxMinute | utils/preprocess.py:93 | NaN exactly for an empty frame; otherwise a minute some row has, and at least every row's minute |
| Preprocess.ExtendedRowsSpec | utils/preprocess.py:93-101 | exactly one row is added when the latest minute is under 90 and none otherwise; the original rows stay in order; the added row is the last row at minute 90; a non-empty result reaches minute 90 |
| Preprocess.ExtendDataWithoutMerge | utils/preprocess.py:64-107 | without `minutes` a KeyError and nothing changed; otherwise the caller's frame has its minutes coerced in place; a missing `column_name` then raises; else the result holds the extended rows, in a fresh frame when a row is added and the caller's own frame when not |
| Preprocess.DataFrame.Appended | utils/preprocess.py:101 | `concat` builds a frame with the same columns and the row appended |
| WiderUtils.PeriodOffset | utils/wider_utils.py:34-41 | periods 2, 3, 4 and 5 add 45, 90, 105 and 120 minutes, and any other period adds 0 |
| WiderUtils.AddMinutes | utils/wider_utils.py:34-41 | adding minutes to a time keeps the seconds and advances the clock minute modulo a day |
| WiderUtils.AdjustRow | utils/wider_utils.py:34-50 | the row keeps its timestamp, period and other columns; its minute is the adjusted clock's `hour * 60 + minute`, capped at `period * 45` |
| WiderUtils.TimeAdjustment | utils/wider_utils.py:5-51 | the result holds exactly the rows whose timestamp parses, in order, each adjusted |
| WiderUtils.MinutesCapped | utils/wider_utils.py:44-50 | every minute is at most `period * 45`, and is either that cap or the clock minute of the adjusted time |
| WiderUtils.SecondHalfExample | utils/wider_utils.py:34-50 | an event at 00:12:05 of period 2 is at minute 57 |
| NonFunctionalUtils.TeamNames | utils/non_functional_utils.py:31-34 | the set holds exactly the names of the events that carry a named team |
| NonFunctionalUtils.MapFilesToTeamNames | utils/non_functional_utils.py:4-41 | the two loops build exactly the mapping of the listing: each loadable `.json` file to its events' team names, other and failing files skipped |
| NonFunctionalUtils.FileTeamsSpec | utils/non_functional_utils.py:20-37 | with distinct file names, a name is a key exactly when its file is a loadable `.json` file, and then maps to its team names |
| NonFunctionalUtils.ItemsRunSticky | utils/non_functional_utils.py:75-104 | once a record of a list file raises, the later records add nothing |
| NonFunctionalUtils.AddListFile | utils/non_functional_utils.py:81-90 | the record loop leaves the mapping equal to the grouping of all pairs so far plus the pairs the file appends before its first raising record |
| NonFunctionalUtils.CreateCompetitionToMatchMapping | utils/non_functional_utils.py:55-115 | the walk returns exactly the grouping, by competition id, of the pairs every `.json` file appends, in walk order |
| NonFunctionalUtils.CompetitionMappingSpec | utils/non_functional_utils.py:87-99 | keys are the competitions in order of first appearance; each holds that competition's match ids in walk order; no match id is lost or duplicated |
| NonFunctionalUtils.RecordAppendsIff | utils/non_functional_utils.py:84-90 | a record appends exactly when it has a competition object and both ids are truthy; an id of 0 is skipped like a missing one |
| NonFunctionalUtils.DictIsOneRecord | utils/non_functional_utils.py:91-99 | a single-object file contributes what a list holding just that object would |
| NonFunctionalUtils.OnlyJsonFilesCount | utils/non_functional_utils.py:70-73 | dropping every file whose name does not end in `.json` leaves the pairs unchanged |
| TeamAnalytics.CategoryIndex | utils/analytics_by_team.py:21 | a category names one of the four keys of `categorized` at its position in key order; any other name is a KeyError |
| TeamAnalytics.PlaceAllAppend | utils/analytics_by_team.py:29-43 | placing two runs of lineup entries one after the other is placing the second from the state the first left, and an error in the first stops everything |
| TeamAnalytics.CategorizeIsPlaceAll | utils/analytics_by_team.py:26-43 | without missing lineups, the double loop over rows and entries is one pass over all entries in row order from four empty lists |
| TeamAnalytics.SentinelRowsIgnored | utils/analytics_by_team.py:26 | rows whose `tactics` is `-999` change nothing: the result is the same with them removed |
| TeamAnalytics.FirstMatched | utils/analytics_by_team.py:35-40 | finds the earliest entry that names a player with a position that is a key of `categories`, or states that there is none |
| TeamAnalytics.PlaceExplains | utils/analytics_by_team.py:35-43 | one entry keeps the squad invariant: seen players are exactly the matched ones, each listed once under the category of their first matching entry, lists in entry order, unmatched positions not keys |
| TeamAnalytics.PlaceAllExplains | utils/analytics_by_team.py:29-43 | every error-free run of entries from empty lists reaches a state satisfying that squad invariant |
| TeamAnalytics.CategorizeOkHasNoMissing | utils/analytics_by_team.py:29-30 | a successful categorization saw no missing `tactics` value (a missing lineup is a TypeError) |
| TeamAnalytics.PlaceAllUnmatched | utils/analytics_by_team.py:35-43 | placing entries from empty lists records as unmatched exactly the positions of entries whose player was not yet placed and whose position is not a key, in order |
| TeamAnalytics.PlaceAllErr | utils/analytics_by_team.py:35-39 | placing entries from empty lists raises exactly when some entry's player was not yet placed and its position maps to a name outside the four categories |
| TeamAnalytics.CategorizeErr | utils/analytics_by_team.py:26-43 | `squad_categorized` raises exactly when a non-placeholder row has a missing lineup or some entry's position maps to a name outside the four categories before its player was placed |
| TeamAnalytics.SquadPlacement | utils/analytics_by_team.py:21-43 | after success: no player is listed twice across the four lists, a player is listed exactly when some entry matches them, under the first matching entry's category, lists ordered by those entries; the unmatched positions are exactly those of the entries whose player was not yet placed and whose position is not a key, in entry order with repeats |
| TeamAnalytics.MaxLength | utils/analytics_by_team.py:45 | the frame height bounds every category list and equals the length of one of them |
| TeamAnalytics.SquadFrame | utils/analytics_by_team.py:45 | four columns in key order, as tall as the longest list; each column holds its list from the top and is missing below it |
| TeamAnalytics.PlaceLineup | utils/analytics_by_team.py:30-43 | the inner loop over one lineup returns what placing its entries one by one gives, stopping at the first KeyError |
| TeamAnalytics.SquadCategorized | utils/analytics_by_team.py:6-47 | the loops return the padded frame and unmatched positions of the categorization specification, or its error |
| TeamAnalytics.GoalTotals | utils/analytics_by_team.py:77-79 | one running total per shot row |
| TeamAnalytics.GoalTotalsCount | utils/analytics_by_team.py:77-79 | the total at each shot is the number of goals among the shots up to and including it |
| TeamAnalytics.CountGoalsMonotone | utils/analytics_by_team.py:77-79 | a longer prefix of shots never has fewer goals |
| TeamAnalytics.GoalTotalsStep | utils/analytics_by_team.py:77-79 | the total starts at the first shot's own goal and rises by one exactly at each goal |
| TeamAnalytics.GoalTotalsMonotone | utils/analytics_by_team.py:77-79 | the `goal_total` column never decreases and ends at the number of goals |
| TeamAnalytics.TeamGoalTotals | utils/analytics_by_team.py:74-79 | one running total per Shot row of the team's events and none for other rows |
| TeamAnalytics.EndingFormation | utils/analytics_by_team.py:131 | `unique()[-1]` is a formation of the frame, the one whose first appearance comes last |
| TeamAnalytics.EndingFormationIsNotLastRow | utils/analytics_by_team.py:131 | the ending formation can differ from the last row's: 442, 433, 442 ends on 433 |
| TeamAnalytics.Formations | utils/analytics_by_team.py:131 | the `tactics.formation` column, one value per row in order |
| TeamAnalytics.LabelPos | utils/analytics_by_team.py:130 | finds the first row whose index label is the wanted one, or states that no row has it |
| TeamAnalytics.SummaryRows | utils/analytics_by_team.py:129-134 | exactly five rows in fixed order: starting formation, ending formation, shots with a type, passes, ball receipts |
| TeamAnalytics.TeamSummary | utils/analytics_by_team.py:110-135 | a KeyError exactly when no row carries index label 0; otherwise the five summary rows with the starting formation read at the first row labelled 0 |
| PlotlyViz.Teams | utils/plotly_viz.py:13 | the `Team` column, one value per row in order |
| PlotlyViz.RowsOf | utils/plotly_viz.py:14 | the frame filtered to one team: only that team's rows, never more than the frame has |
| PlotlyViz.MaxMinute | utils/plotly_viz.py:35 | the latest minute of a frame: missing (NaN) exactly for an empty frame, otherwise a minute of some row that bounds every row's minute |
| PlotlyViz.PyMax | utils/plotly_viz.py:35 | Python's two-argument `max`: a NaN first argument wins, a NaN second one loses, and two minutes give the larger |
| PlotlyViz.MaxMinutesBoundsAll | utils/plotly_viz.py:35 | when both frames have rows, the chart's extent bounds every minute of both frames |
| PlotlyViz.TeamLines | utils/plotly_viz.py:13-32 | one line per listed team, in that order, each named by team and suffix and drawn through that team's rows |
| PlotlyViz.TeamTraces | utils/plotly_viz.py:13-32 | the `add_trace` loop produces exactly the lines of the specification for the given teams |
| PlotlyViz.AddBands | utils/plotly_viz.py:37-85 | an extra-time band from 90 to min(120, extent) with its label exactly when the extent is past 90; a penalties band from 120 to the extent with its centred label exactly when past 120; nothing for a NaN extent |
| PlotlyViz.PlotMetrics | utils/plotly_viz.py:3-106 | dotted xG lines per distinct team in first-appearance order, then solid goal lines likewise, then, for the larger latest minute m of the two frames, the extra-time band from 90 to min(120, m) with its "Extra Time" note exactly when m is past 90, and the penalties band from 120 to m with its "Penalties" note centred between them exactly when m is past 120 |
| PlotlyViz.EmptyXgFrameHidesBands | utils/plotly_viz.py:35 | an empty xG frame makes the extent NaN, so no band is drawn whatever the goal frame holds, while the other argument order would use the goal frame's minute |
| PlotlyViz.PointsOfLines | utils/plotly_viz.py:13-32 | the lines together carry as many points as the frame has rows for the listed teams |
| PlotlyViz.PointCountCovers | utils/plotly_viz.py:13-32 | when every row's team is listed once, the rows of the listed teams are all the rows |
| PlotlyViz.EveryRowDrawnOnce | utils/plotly_viz.py:13-32 | looping over the frame's distinct teams draws every row of the frame exactly once in total |
| PlotlyViz.LineNamesDistinct | utils/plotly_viz.py:19 | distinct teams give lines with distinct names |
| PlotlyViz.XgLineNamesDistinct | utils/plotly_viz.py:13-21 | no two xG lines share a legend name |
| Groups.GroupPairsSpec | static/js/match_analysis.js:63-70 | the "create the list on first sight, then push" grouping keeps every pair exactly once: keys are the distinct keys in first-seen order and each key's list holds exactly its values in input order |
| Seqs.Distinct | utils/plotly_viz.py:13 | `unique()` keeps each value once, loses none, and invents none |
| MatchCache.Cache.constructor | static/js/match_analysis.js:1 | the cache starts empty and no match has been requested |
| MatchList.StagePairs | static/js/match_analysis.js:63-70 | one (stage key, entry) pair per item of the response |
| MatchList.InsertByIndex | static/js/match_analysis.js:73 | inserting a group adds exactly that group: one more group, the same groups otherwise |
| MatchList.SortByIndex | static/js/match_analysis.js:73 | ordering the array-index groups keeps exactly the same groups |
| Seqs.SplitHasTwoParts | static/js/navbar.js:17-18 | a value that contains '-' splits into at least two parts, so `split('-')[1]` is defined |
| Navbar.NoDashInDigits | static/js/navbar.js:10 | the decimal text of a numeric id never contains '-' |
| Seqs.Split | static/js/navbar.js:17-18 | JavaScript's `split` always returns at least one part |
| Seqs.SplitWithoutSeparator | static/js/switch_tab.js:26 | a text without the separator splits into itself alone |
| Seqs.SplitAfterPrefix | static/js/switch_tab.js:26 | a first part with no earlier occurrence of the separator comes back as the first part, and the rest splits on its own |
| Seqs.FirstOccurrence | static/js/switch_tab.js:26 | finds where the separator first occurs in the text, with no occurrence before it, or states that it does not occur |
| Seqs.PrefixBefore | static/js/navbar.js:18 | the text up to the first occurrence of the separator contains no occurrence of it |
| Seqs.SplitAtFirst | static/js/switch_tab.js:26 | splitting at the first occurrence gives the text before it followed by the split of the text after it |
| Seqs.SplitAtOccurrence | static/js/navbar.js:17-18 | when the separator occurs, the first part is the text before its first occurrence, the second is the text after it up to the next occurrence, and there are exactly two parts when no other occurrence follows |
| Seqs.SplitHead | static/js/switch_tab.js:26 | the first part of a split is the text up to the first occurrence, and there are at least two parts exactly when the separator occurs |
| Seqs.ParseNatToString | static/js/navbar.js:10 | printing a numeric id in decimal and parsing the digits back gives the id |
| Seqs.FilterPartition | utils/preprocess.py:32-33 | keeping and dropping by one test splits a list into two parts that together hold every element exactly once |

## Left out

- `fetch`, `response.json()`, `CustomEvent` dispatch and DOM lookups are modelled as inputs. A request's outcome (a payload, an HTTP error or a network error) is a parameter, and each handler runs to completion.
- Overlapping requests in flight, including two `getMatchData` calls racing to fill the cache, are concurrency and are not modelled.
- Running the returned graph's scripts with `new Function(...)()` in `getMatchGraph` is dynamic code execution and is left out. The model records only that the container's content is replaced.
- static/js/update_graph.js is not part of this model. It is a thin wrapper over `Plotly.react` and `alert`.
- utils/plotting_functions.py is not part of this model. It imports a function that the analytics module does not define, and it plots floating-point values.
- routes, app.py, config.py and utils/data_loader.py are not part of this model. They are Flask blueprints and I/O wrappers.
- `substitutions_summary` is a column selection with a rename and no logic of its own.
- The `cum_xg` column and `shot.statsbomb_xg` of `calculate_team_metrics` are floating-point sums and are not modelled. Only `goal_total` is.
- Directory walks, file opening and reading, `print`, and writing the output JSON in utils/non_functional_utils.py are not modelled. Each file is given as its name and its already-parsed content, or as a failure to load.
- NonFunctionalUtils.TeamNames: the team names are a set. The order that `list(set(...))` happens to produce is not modelled.
- NonFunctionalUtils.MapFilesToTeamNames: an event is either an object with an optional `team.name` or makes the file fail. Other JSON shapes inside the event list are folded into that failure.
- WiderUtils.TimeAdjustment: `pd.to_datetime` is modelled as either a parse failure or a time of day. Dates and time zones are ignored.
- Preprocess.CoerceMinutes: a minute is an integer, digit-only text (which is parsed), or something else, which becomes 0. Signed or decimal text and float minutes, which pandas would convert to a number, also become 0 here.
- Preprocess.Capitalized, Preprocess.Lowered: only ASCII letters change case. Unicode case mapping is not modelled.
- TeamAnalytics.TeamSummary: when several rows carry index label 0, pandas returns a Series instead of one formation. The model reads the first of those rows. `MatchAnalysisUtils.LabelZero` does the same for `home_team[0]`.
- PlotlyViz.PlotMetrics: minutes are integers, and a missing minute is NaN only for an empty frame. NaN team names, the `applymap` conversion, trace styling and `update_layout` are not modelled.
- TeamAnalytics.SquadFrame: pandas' missing-value padding is `None`. The float dtype it brings to a column is not modelled.

## Findings

| source | as written | input that shows it | evidently intended | confidence | as-written member | corrected member |
|---|---|---|---|---|---|---|
| utils/match_analysis_utils.py:20-34 | A home goal looks up its assist when `key_pass_id != -999`. An away goal looks it up when `key_pass_id` is not NaN. Each lookup takes `iloc[0]` of the rows with that id. | A home goal whose `key_pass_id` is NaN, or an away goal whose `key_pass_id` is -999. The lookup matches no row and `iloc[0]` raises IndexError. | Look up an assist only when the goal carries a real pass id. Unassisted goals on either side then record no assist. | not executed | MatchAnalysisUtils.AsWrittenUnassistedGoalRaises | MatchAnalysisUtils.CorrectedRaisesOnlyOnDanglingIds |

`MatchAnalysisUtils.GoalAssistData` models the loop as written.
`MatchAnalysisUtils.MatchOverview` takes the assist rule as a parameter. With `AsWritten` it is the code as written (`MatchAnalysisUtils.AsWrittenOverviewRaises`), and with `Corrected` it is the intended behaviour.
