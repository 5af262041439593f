/** The offline data-preparation scripts of `utils/non_functional_utils.py`:
    mapping each event file to the team names it mentions, and mapping each
    competition to the matches of the match files under a directory tree.
    The directory listing and the parsed content of every file are inputs;
    the output files they write are not modelled. */
module NonFunctionalUtils {
  import opened Seqs
  import opened Groups

  predicate EndsWithJson(name: string) {
    |name| >= 5 && name[|name| - 5..] == ".json"
  }

  // map_files_to_team_names

  /** The `team` entry of an event: absent, without a `name`, or named. */
  datatype TeamField = NoTeam | Unnamed | Named(name: string)

  /** A file as `json.load` leaves it: a list of events, or a failure
      (unreadable, not JSON, or not a list of event objects). */
  datatype EventFile = EventList(events: seq<TeamField>) | Unloadable

  datatype Listed = Listed(name: string, content: EventFile)

  /** The team names of a file's events. */
  function TeamNames(events: seq<TeamField>): (r: set<string>)
    ensures forall n :: n in r <==> exists i :: 0 <= i < |events| && events[i] == Named(n)
  {
    if events == [] then {}
    else
      var r := TeamNames(events[..|events| - 1]);
      var e := events[|events| - 1];
      assert forall i :: 0 <= i < |events| - 1 ==> events[..|events| - 1][i] == events[i];
      if e.Named? then r + {e.name} else r
  }

  /** The mapping after the files of `listing`, in listing order. */
  function FileTeams(listing: seq<Listed>): map<string, set<string>> {
    if listing == [] then map[]
    else
      var f := listing[|listing| - 1];
      var m := FileTeams(listing[..|listing| - 1]);
      if EndsWithJson(f.name) && f.content.EventList? then m[f.name := TeamNames(f.content.events)] else m
  }

  /** `map_files_to_team_names`: a loop over the directory's files, and for
      each JSON file a loop over its events collecting the team names into
      a set. A file that fails is skipped and the loop goes on. */
  method MapFilesToTeamNames(listing: seq<Listed>) returns (fileToTeams: map<string, set<string>>)
    ensures fileToTeams == FileTeams(listing)
  {
    fileToTeams := map[];
    for i := 0 to |listing|
      invariant fileToTeams == FileTeams(listing[..i])
    {
      var f := listing[i];
      assert listing[..i + 1][..i] == listing[..i];
      if EndsWithJson(f.name) {
        match f.content {
          case EventList(events) =>
            var teamNames: set<string> := {};
            for j := 0 to |events|
              invariant teamNames == TeamNames(events[..j])
            {
              assert events[..j + 1][..j] == events[..j];
              if events[j].Named? {
                teamNames := teamNames + {events[j].name};
              }
            }
            assert events[..|events|] == events;
            fileToTeams := fileToTeams[f.name := teamNames];
          case Unloadable =>
        }
      }
    }
    assert listing[..|listing|] == listing;
  }

  /** In a listing without repeated names, a name is mapped exactly when
      its file is a loadable JSON file, and then to the set of its events'
      team names. */
  lemma {:induction false} FileTeamsSpec(listing: seq<Listed>)
    requires forall i, j :: 0 <= i < j < |listing| ==> listing[i].name != listing[j].name
    ensures forall k :: k in FileTeams(listing) <==>
      exists i :: 0 <= i < |listing| && listing[i].name == k && EndsWithJson(k) && listing[i].content.EventList?
    ensures forall i :: 0 <= i < |listing| && EndsWithJson(listing[i].name) && listing[i].content.EventList? ==>
      FileTeams(listing)[listing[i].name] == TeamNames(listing[i].content.events)
  {
    if listing != [] {
      var p := listing[..|listing| - 1];
      FileTeamsSpec(p);
      assert forall i :: 0 <= i < |p| ==> p[i] == listing[i];
    }
  }

  // create_competition_to_match_mapping

  /** A JSON scalar used as an id. */
  datatype Id = Num(n: int) | Text(text: string)

  /** `dict.get(key)` on an id field: absent or `null` read as `None`. */
  datatype IdField = NoId | Value(id: Id)

  /** Python truthiness of an id: `None`, `0` and `""` are false. */
  predicate Truthy(f: IdField) {
    match f
    case NoId => false
    case Value(Num(n)) => n != 0
    case Value(Text(s)) => s != ""
  }

  /** The `competition` entry of a match record: absent (read as `{}`), an
      object with its `competition_id`, or something without `.get` (such
      as `null`), which raises. */
  datatype CompetitionField = NoCompetition | Competition(competitionId: IdField) | NotAnObject

  datatype MatchRecord = MatchRecord(matchId: IdField, competition: CompetitionField)

  /** An element of a list file: a match record, or something without
      `.get`, which raises. */
  datatype Item = Record(record: MatchRecord) | NonRecord

  /** What `json.load` gives: a list, a single object, another JSON value,
      or a failure to read or parse. */
  datatype MatchFile = ListDoc(items: seq<Item>) | DictDoc(record: MatchRecord) | OtherDoc | Unreadable

  datatype WalkedFile = WalkedFile(name: string, content: MatchFile)

  /** What one record does: raise, be skipped, or append `match_id` to the
      list of `competition_id`. */
  datatype Outcome = Raises | Skipped | Appends(competitionId: Id, matchId: Id)

  function RecordOutcome(r: MatchRecord): Outcome {
    match r.competition
    case NotAnObject => Raises
    case NoCompetition => Skipped
    case Competition(c) => if Truthy(c) && Truthy(r.matchId) then Appends(c.id, r.matchId.id) else Skipped
  }

  function ItemOutcome(item: Item): Outcome {
    match item
    case NonRecord => Raises
    case Record(r) => RecordOutcome(r)
  }

  /** The pairs a list file appends before it ends or raises, and whether
      it raised. */
  function ItemsRun(items: seq<Item>): (seq<(Id, Id)>, bool) {
    if items == [] then ([], false)
    else
      var prev := ItemsRun(items[..|items| - 1]);
      if prev.1 then prev
      else
        match ItemOutcome(items[|items| - 1])
        case Raises => (prev.0, true)
        case Skipped => prev
        case Appends(c, m) => (prev.0 + [(c, m)], false)
  }

  lemma {:induction false} ItemsRunSticky(items: seq<Item>, n: nat)
    requires n <= |items| && ItemsRun(items[..n]).1
    ensures ItemsRun(items) == ItemsRun(items[..n])
    decreases |items| - n
  {
    if n < |items| {
      assert items[..n + 1][..n] == items[..n];
      ItemsRunSticky(items, n + 1);
    } else {
      assert items[..n] == items;
    }
  }

  /** The pairs one file contributes: only `.json` files are read; a list
      contributes its records' pairs up to the first one that raises, a
      single object counts as one record, anything else contributes
      nothing. */
  function FilePairs(f: WalkedFile): seq<(Id, Id)> {
    if !EndsWithJson(f.name) then []
    else
      match f.content
      case ListDoc(items) => ItemsRun(items).0
      case DictDoc(r) => (match RecordOutcome(r) case Appends(c, m) => [(c, m)] case _ => [])
      case OtherDoc => []
      case Unreadable => []
  }

  /** The pairs of all files, in walk order. */
  function WalkPairs(files: seq<WalkedFile>): seq<(Id, Id)> {
    if files == [] then [] else WalkPairs(files[..|files| - 1]) + FilePairs(files[|files| - 1])
  }

  lemma GroupPairsSnoc(ps: seq<(Id, Id)>, p: (Id, Id))
    ensures GroupPairs(ps + [p]) == Add(GroupPairs(ps), p.0, p.1)
  {
    assert (ps + [p])[..|ps|] == ps;
  }

  lemma ItemsRunStep(items: seq<Item>, j: nat)
    requires j < |items| && !ItemsRun(items[..j]).1
    ensures ItemsRun(items[..j + 1]) ==
      match ItemOutcome(items[j])
      case Raises => (ItemsRun(items[..j]).0, true)
      case Skipped => ItemsRun(items[..j])
      case Appends(c, m) => (ItemsRun(items[..j]).0 + [(c, m)], false)
  {
    assert items[..j + 1][..j] == items[..j];
  }

  lemma GroupPairsAppend(before: seq<(Id, Id)>, run: seq<(Id, Id)>, p: (Id, Id))
    ensures GroupPairs(before + (run + [p])) == Add(GroupPairs(before + run), p.0, p.1)
  {
    GroupPairsSnoc(before + run, p);
    assert before + run + [p] == before + (run + [p]);
  }

  /** The loop over the records of one list file: each valid record
      appends its `match_id` to its competition's list, creating the list
      on first sight; the first record that raises ends the file, and what
      was appended before it stays. */
  method AddListFile(groups: seq<Group<Id, Id>>, ghost before: seq<(Id, Id)>, items: seq<Item>)
    returns (groups': seq<Group<Id, Id>>)
    requires groups == GroupPairs(before)
    ensures groups' == GroupPairs(before + ItemsRun(items).0)
  {
    groups' := groups;
    var j := 0;
    var raised := false;
    assert items[..0] == [] && before + [] == before;
    while j < |items| && !raised
      invariant 0 <= j <= |items|
      invariant !raised ==> !ItemsRun(items[..j]).1
      invariant raised ==> ItemsRun(items[..j]).1
      invariant groups' == GroupPairs(before + ItemsRun(items[..j]).0)
    {
      ItemsRunStep(items, j);
      match ItemOutcome(items[j]) {
        case Raises =>
          raised := true;
        case Skipped =>
        case Appends(c, m) =>
          GroupPairsAppend(before, ItemsRun(items[..j]).0, (c, m));
          groups' := Add(groups', c, m);
      }
      j := j + 1;
    }
    if raised {
      ItemsRunSticky(items, j);
    } else {
      assert items[..j] == items;
    }
  }

  /** `create_competition_to_match_mapping`: the walk over the files,
      reading only `.json` files; a single object is handled as one record
      and any other document is skipped. */
  method CreateCompetitionToMatchMapping(files: seq<WalkedFile>) returns (competitionToMatches: seq<Group<Id, Id>>)
    ensures competitionToMatches == GroupPairs(WalkPairs(files))
  {
    competitionToMatches := [];
    for i := 0 to |files|
      invariant competitionToMatches == GroupPairs(WalkPairs(files[..i]))
    {
      var f := files[i];
      ghost var before := WalkPairs(files[..i]);
      assert files[..i + 1] == files[..i] + [f];
      WalkPairsSnoc(files[..i], f);
      assert before + [] == before;
      if EndsWithJson(f.name) {
        match f.content {
          case ListDoc(items) =>
            competitionToMatches := AddListFile(competitionToMatches, before, items);
          case DictDoc(r) =>
            match RecordOutcome(r) {
              case Appends(c, m) =>
                GroupPairsSnoc(before, (c, m));
                competitionToMatches := Add(competitionToMatches, c, m);
              case _ =>
            }
          case OtherDoc =>
          case Unreadable =>
        }
      }
    }
    assert files[..|files|] == files;
  }

  /** A competition is a key exactly when some appended pair carries it;
      keys follow first appearance in walk order, and each list holds that
      competition's match ids in walk order, then record order. */
  lemma CompetitionMappingSpec(files: seq<WalkedFile>)
    ensures Keys(GroupPairs(WalkPairs(files))) == Distinct(Firsts(WalkPairs(files)))
    ensures forall c :: ItemsOf(GroupPairs(WalkPairs(files)), c) == ValuesFor(WalkPairs(files), c)
    ensures multiset(Flatten(GroupPairs(WalkPairs(files)))) == multiset(Seconds(WalkPairs(files)))
  {
    GroupPairsSpec(WalkPairs(files));
  }

  /** A record appends exactly when it has a competition object and both
      ids are truthy; an id of 0 or "" is skipped like a missing one. */
  lemma RecordAppendsIff(r: MatchRecord)
    ensures RecordOutcome(r).Appends? <==>
      r.competition.Competition? && Truthy(r.competition.competitionId) && Truthy(r.matchId)
    ensures RecordOutcome(MatchRecord(Value(Num(0)), Competition(Value(Num(11))))) == Skipped
  {
  }

  /** A single-object file contributes what a list holding just that object
      would. */
  lemma DictIsOneRecord(name: string, r: MatchRecord)
    ensures FilePairs(WalkedFile(name, DictDoc(r))) == FilePairs(WalkedFile(name, ListDoc([Record(r)])))
  {
    var items := [Record(r)];
    assert items[..0] == [];
    assert ItemsRun(items[..0]) == ([], false);
    assert ItemsRun(items).0 == match RecordOutcome(r) case Appends(c, m) => [(c, m)] case _ => [];
  }

  predicate IsJsonFile(f: WalkedFile) { EndsWithJson(f.name) }

  lemma WalkPairsSnoc(a: seq<WalkedFile>, f: WalkedFile)
    ensures WalkPairs(a + [f]) == WalkPairs(a) + FilePairs(f)
  {
    assert (a + [f])[..|a|] == a;
  }

  lemma NonJsonContributesNothing(f: WalkedFile)
    requires !IsJsonFile(f)
    ensures FilePairs(f) == []
  {
  }

  lemma JsonWalkStep(q: seq<WalkedFile>, p: seq<WalkedFile>, f: WalkedFile)
    requires WalkPairs(q) == WalkPairs(p)
    ensures WalkPairs(q + (if IsJsonFile(f) then [f] else [])) == WalkPairs(p + [f])
  {
    WalkPairsSnoc(p, f);
    if IsJsonFile(f) {
      WalkPairsSnoc(q, f);
    } else {
      NonJsonContributesNothing(f);
      assert q + [] == q;
    }
  }

  /** Files whose names do not end in `.json` contribute nothing: the walk
      over only the JSON files gives the same pairs. */
  lemma {:induction false} OnlyJsonFilesCount(files: seq<WalkedFile>)
    ensures WalkPairs(Filter(files, IsJsonFile)) == WalkPairs(files)
  {
    if files == [] {
      assert Filter(files, IsJsonFile) == [];
    } else {
      var p, f := files[..|files| - 1], files[|files| - 1];
      assert files == p + [f];
      OnlyJsonFilesCount(p);
      FilterRejectSnoc(p, f, IsJsonFile);
      JsonWalkStep(Filter(p, IsJsonFile), p, f);
    }
  }
}
