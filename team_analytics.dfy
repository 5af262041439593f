/** The team analytics utilities: sorting the lineup players into four
    squad categories, the running goal count over a team's shots, and the
    five-row team summary. DataFrames are sequences of records. */
module TeamAnalytics {
  import opened Basics
  import opened Seqs

  /** One `tactics.lineup` entry: its `position.name` and `player.name`. */
  datatype LineupEntry = LineupEntry(position: string, player: string)

  /** The `tactics` cell of a row: the `-999` placeholder, a missing value
      (`NaN`, which is not `-999` and has no `['lineup']`), or a lineup. */
  datatype Tactics = Sentinel | Missing | Lineup(entries: seq<LineupEntry>)

  /** The keys of `categorized`, in order. */
  const CategoryNames: seq<string> := ["Goalkeeper", "Defenders", "Midfielders", "Forwards"]

  /** The position of a category among the four keys; `None` is a KeyError. */
  function CategoryIndex(name: string): (r: Option<nat>)
    ensures r.Some? ==> r.value < 4 && CategoryNames[r.value] == name
    ensures r.None? ==> name !in CategoryNames
  {
    if name == "Goalkeeper" then Some(0)
    else if name == "Defenders" then Some(1)
    else if name == "Midfielders" then Some(2)
    else if name == "Forwards" then Some(3)
    else None
  }

  type Columns = c: seq<seq<string>> | |c| == 4 witness [[], [], [], []]

  /** The loop's state: the four category lists, `unmatched_positions` and
      `all_players`. */
  datatype SquadState = SquadState(columns: Columns, unmatched: seq<string>, seen: set<string>)

  const EmptySquad: SquadState := SquadState([[], [], [], []], [], {})

  /** One pass of the inner loop body. */
  function Place(cats: map<string, string>, st: SquadState, e: LineupEntry): Result<SquadState> {
    if e.player in st.seen then Ok(st)
    else if e.position in cats then
      match CategoryIndex(cats[e.position])
      case None => Err("KeyError")
      case Some(c) =>
        Ok(SquadState(st.columns[c := st.columns[c] + [e.player]], st.unmatched, st.seen + {e.player}))
    else Ok(st.(unmatched := st.unmatched + [e.position]))
  }

  /** The inner loop over one lineup, stopping at the first error. */
  function PlaceAll(cats: map<string, string>, st: SquadState, es: seq<LineupEntry>): Result<SquadState> {
    if es == [] then Ok(st)
    else
      var prev := PlaceAll(cats, st, es[..|es| - 1]);
      if prev.Err? then prev else Place(cats, prev.value, es[|es| - 1])
  }

  /** Both loops over the rows, the `-999` rows filtered out first. */
  function Categorize(cats: map<string, string>, rows: seq<Tactics>): Result<SquadState> {
    if rows == [] then Ok(EmptySquad)
    else
      var prev := Categorize(cats, rows[..|rows| - 1]);
      if prev.Err? then prev
      else
        match rows[|rows| - 1]
        case Sentinel => prev
        case Missing => Err("TypeError")
        case Lineup(es) => PlaceAll(cats, prev.value, es)
  }

  /** The entries of all lineups, in row order. */
  function AllEntries(rows: seq<Tactics>): seq<LineupEntry> {
    if rows == [] then []
    else AllEntries(rows[..|rows| - 1]) + (if rows[|rows| - 1].Lineup? then rows[|rows| - 1].entries else [])
  }

  lemma {:induction false} PlaceAllAppend(cats: map<string, string>, st: SquadState, a: seq<LineupEntry>, b: seq<LineupEntry>)
    ensures PlaceAll(cats, st, a + b) ==
      if PlaceAll(cats, st, a).Err? then PlaceAll(cats, st, a) else PlaceAll(cats, PlaceAll(cats, st, a).value, b)
    decreases |b|
  {
    if b == [] {
      assert a + b == a;
    } else {
      assert (a + b)[..|a + b| - 1] == a + b[..|b| - 1];
      PlaceAllAppend(cats, st, a, b[..|b| - 1]);
    }
  }

  /** Without missing lineups, categorizing the rows is placing every entry
      of every lineup in order, starting from empty lists. */
  lemma {:induction false} CategorizeIsPlaceAll(cats: map<string, string>, rows: seq<Tactics>)
    requires forall i :: 0 <= i < |rows| ==> !rows[i].Missing?
    ensures Categorize(cats, rows) == PlaceAll(cats, EmptySquad, AllEntries(rows))
  {
    if rows != [] {
      var p := rows[..|rows| - 1];
      CategorizeIsPlaceAll(cats, p);
      var last := rows[|rows| - 1];
      assert !last.Missing?;
      if last.Lineup? {
        assert AllEntries(rows) == AllEntries(p) + last.entries;
        PlaceAllAppend(cats, EmptySquad, AllEntries(p), last.entries);
      } else {
        assert AllEntries(p) + [] == AllEntries(p);
        assert AllEntries(rows) == AllEntries(p);
      }
    }
  }

  predicate IsSentinel(t: Tactics) { t.Sentinel? }

  /** Rows whose `tactics` is `-999` contribute nothing. */
  lemma {:induction false} SentinelRowsIgnored(cats: map<string, string>, rows: seq<Tactics>)
    ensures Categorize(cats, rows) == Categorize(cats, Reject(rows, IsSentinel))
  {
    if rows != [] {
      var p, last := rows[..|rows| - 1], rows[|rows| - 1];
      SentinelRowsIgnored(cats, p);
      var kept := Reject(rows, IsSentinel);
      if IsSentinel(last) {
        assert kept == Reject(p, IsSentinel);
      } else {
        assert kept == Reject(p, IsSentinel) + [last];
        assert kept[..|kept| - 1] == Reject(p, IsSentinel);
      }
    }
  }

  /** Index of the first entry that names `player` with a position that is a
      key of `cats`: the entry that decides the player's category. */
  function FirstMatched(cats: map<string, string>, es: seq<LineupEntry>, player: string): (r: Option<nat>)
    ensures r.Some? ==>
      && r.value < |es| && es[r.value].player == player && es[r.value].position in cats
      && forall k :: 0 <= k < r.value ==> !(es[k].player == player && es[k].position in cats)
    ensures r.None? ==> forall k :: 0 <= k < |es| ==> !(es[k].player == player && es[k].position in cats)
  {
    if es == [] then None
    else
      var prev := FirstMatched(cats, es[..|es| - 1], player);
      if prev.Some? then prev
      else if es[|es| - 1].player == player && es[|es| - 1].position in cats then Some(|es| - 1)
      else None
  }

  /** The category column that the first matching entry of `player` selects. */
  function DecidedColumn(cats: map<string, string>, es: seq<LineupEntry>, player: string): Option<nat> {
    var k := FirstMatched(cats, es, player);
    if k.None? then None else CategoryIndex(cats[es[k.value].position])
  }

  /** What a state reached by placing `es` from empty lists looks like: a
      player is seen exactly when some entry matches them; every listed
      player sits in the column their first matching entry decides, at most
      once, and each column lists players in the order of those entries;
      the unmatched list holds only positions that are not keys. */
  ghost predicate Explains(cats: map<string, string>, es: seq<LineupEntry>, st: SquadState) {
    && (forall p :: p in st.seen <==> FirstMatched(cats, es, p).Some?)
    && (forall p :: p in st.seen ==> DecidedColumn(cats, es, p).Some?)
    && (forall c, i :: 0 <= c < 4 && 0 <= i < |st.columns[c]| ==>
          st.columns[c][i] in st.seen && DecidedColumn(cats, es, st.columns[c][i]) == Some(c))
    && (forall p :: p in st.seen ==> p in st.columns[DecidedColumn(cats, es, p).value])
    && (forall c, i, j :: 0 <= c < 4 && 0 <= i < j < |st.columns[c]| ==>
          FirstMatched(cats, es, st.columns[c][i]).value < FirstMatched(cats, es, st.columns[c][j]).value)
    && (forall i :: 0 <= i < |st.unmatched| ==> st.unmatched[i] !in cats)
  }

  lemma FirstMatchedExtend(cats: map<string, string>, es: seq<LineupEntry>, e: LineupEntry, p: string)
    ensures FirstMatched(cats, es + [e], p) ==
      if FirstMatched(cats, es, p).Some? then FirstMatched(cats, es, p)
      else if e.player == p && e.position in cats then Some(|es|)
      else None
  {
    assert (es + [e])[..|es|] == es;
  }

  lemma DecidedColumnExtend(cats: map<string, string>, es: seq<LineupEntry>, e: LineupEntry, p: string)
    requires FirstMatched(cats, es, p).Some?
    ensures DecidedColumn(cats, es + [e], p) == DecidedColumn(cats, es, p)
    ensures FirstMatched(cats, es + [e], p) == FirstMatched(cats, es, p)
  {
    FirstMatchedExtend(cats, es, e, p);
    var k := FirstMatched(cats, es, p).value;
    assert (es + [e])[k] == es[k];
  }

  /** One placement step keeps `Explains`. */
  lemma PlaceExplains(cats: map<string, string>, es: seq<LineupEntry>, st: SquadState, e: LineupEntry)
    requires Explains(cats, es, st) && Place(cats, st, e).Ok?
    ensures Explains(cats, es + [e], Place(cats, st, e).value)
  {
    if e.player in st.seen || e.position !in cats {
      PlaceUnchangedMatches(cats, es, st, e);
    } else {
      PlaceNewPlayer(cats, es, st, e);
    }
  }

  /** An entry for a seen player, or with a position that is no key, changes
      no first match. */
  lemma PlaceUnchangedMatches(cats: map<string, string>, es: seq<LineupEntry>, st: SquadState, e: LineupEntry)
    requires Explains(cats, es, st) && Place(cats, st, e).Ok?
    requires e.player in st.seen || e.position !in cats
    ensures Explains(cats, es + [e], Place(cats, st, e).value)
  {
    OthersKeepMatches(cats, es, e);
    PlayerKeepsMatch(cats, es, st, e);
    var st' := Place(cats, st, e).value;
    if e.player !in st.seen {
      assert st' == st.(unmatched := st.unmatched + [e.position]);
      UnmatchedExplains(cats, es, st, e.position);
    }
    ExplainsTransfer(cats, es, e, st');
  }

  lemma PlayerKeepsMatch(cats: map<string, string>, es: seq<LineupEntry>, st: SquadState, e: LineupEntry)
    requires Explains(cats, es, st)
    requires e.player in st.seen || e.position !in cats
    ensures FirstMatched(cats, es + [e], e.player) == FirstMatched(cats, es, e.player)
    ensures DecidedColumn(cats, es + [e], e.player) == DecidedColumn(cats, es, e.player)
  {
    FirstMatchedExtend(cats, es, e, e.player);
    if FirstMatched(cats, es, e.player).Some? {
      DecidedColumnExtend(cats, es, e, e.player);
    }
  }

  lemma UnmatchedExplains(cats: map<string, string>, es: seq<LineupEntry>, st: SquadState, position: string)
    requires Explains(cats, es, st) && position !in cats
    ensures Explains(cats, es, st.(unmatched := st.unmatched + [position]))
  {
  }

  /** A state explained by `es` is explained by `es + [e]` when no player's
      first match moves. */
  lemma ExplainsTransfer(cats: map<string, string>, es: seq<LineupEntry>, e: LineupEntry, st: SquadState)
    requires Explains(cats, es, st) && MatchesKept(cats, es, e)
    requires FirstMatched(cats, es + [e], e.player) == FirstMatched(cats, es, e.player)
    requires DecidedColumn(cats, es + [e], e.player) == DecidedColumn(cats, es, e.player)
    ensures Explains(cats, es + [e], st)
  {
    forall p ensures FirstMatched(cats, es + [e], p) == FirstMatched(cats, es, p)
      && DecidedColumn(cats, es + [e], p) == DecidedColumn(cats, es, p)
    {
    }
  }

  /** An unseen player with a key position becomes the last of the column
      their category names, and that entry is their first match. */
  lemma PlaceNewPlayer(cats: map<string, string>, es: seq<LineupEntry>, st: SquadState, e: LineupEntry)
    requires Explains(cats, es, st) && Place(cats, st, e).Ok?
    requires e.player !in st.seen && e.position in cats
    ensures Explains(cats, es + [e], Place(cats, st, e).value)
  {
    var c := CategoryIndex(cats[e.position]).value;
    assert Place(cats, st, e).value == SquadState(st.columns[c := st.columns[c] + [e.player]], st.unmatched, st.seen + {e.player});
    OthersKeepMatches(cats, es, e);
    NewPlayerMatch(cats, es, e, c);
    NewPlayerListed(cats, es, st, e, c);
    NewPlayerOrdered(cats, es, st, e, c);
    NewPlayerFound(cats, es, st, e, c);
  }

  lemma OthersKeepMatches(cats: map<string, string>, es: seq<LineupEntry>, e: LineupEntry)
    ensures MatchesKept(cats, es, e)
  {
    forall p | p != e.player ensures FirstMatched(cats, es + [e], p) == FirstMatched(cats, es, p)
      && DecidedColumn(cats, es + [e], p) == DecidedColumn(cats, es, p)
    {
      FirstMatchedExtend(cats, es, e, p);
      if FirstMatched(cats, es, p).Some? {
        DecidedColumnExtend(cats, es, e, p);
      }
    }
  }

  lemma NewPlayerMatch(cats: map<string, string>, es: seq<LineupEntry>, e: LineupEntry, c: nat)
    requires FirstMatched(cats, es, e.player).None? && e.position in cats
    requires CategoryIndex(cats[e.position]) == Some(c)
    ensures FirstMatched(cats, es + [e], e.player) == Some(|es|)
    ensures DecidedColumn(cats, es + [e], e.player) == Some(c)
  {
    FirstMatchedExtend(cats, es, e, e.player);
    assert (es + [e])[|es|] == e;
  }

  lemma NewPlayerFound(cats: map<string, string>, es: seq<LineupEntry>, st: SquadState, e: LineupEntry, c: nat)
    requires Explains(cats, es, st) && e.player !in st.seen && c < 4
    requires MatchesKept(cats, es, e) && DecidedColumn(cats, es + [e], e.player) == Some(c)
    ensures var st' := SquadState(st.columns[c := st.columns[c] + [e.player]], st.unmatched, st.seen + {e.player});
      forall p :: p in st'.seen ==> p in st'.columns[DecidedColumn(cats, es + [e], p).value]
  {
    var st' := SquadState(st.columns[c := st.columns[c] + [e.player]], st.unmatched, st.seen + {e.player});
    forall p | p in st'.seen ensures p in st'.columns[DecidedColumn(cats, es + [e], p).value] {
      if p == e.player {
        assert st'.columns[c][|st.columns[c]|] == p;
      } else {
        var d := DecidedColumn(cats, es, p).value;
        assert p in st.columns[d];
        var i :| 0 <= i < |st.columns[d]| && st.columns[d][i] == p;
        assert st'.columns[d][i] == p;
      }
    }
  }

  /** Every other player keeps their first match when `e` is appended. */
  ghost predicate MatchesKept(cats: map<string, string>, es: seq<LineupEntry>, e: LineupEntry) {
    forall p :: p != e.player ==>
      FirstMatched(cats, es + [e], p) == FirstMatched(cats, es, p)
      && DecidedColumn(cats, es + [e], p) == DecidedColumn(cats, es, p)
  }

  lemma NewPlayerListed(cats: map<string, string>, es: seq<LineupEntry>, st: SquadState, e: LineupEntry, c: nat)
    requires Explains(cats, es, st) && e.player !in st.seen && c < 4
    requires MatchesKept(cats, es, e) && DecidedColumn(cats, es + [e], e.player) == Some(c)
    ensures var st' := SquadState(st.columns[c := st.columns[c] + [e.player]], st.unmatched, st.seen + {e.player});
      forall c0, i :: 0 <= c0 < 4 && 0 <= i < |st'.columns[c0]| ==>
        st'.columns[c0][i] in st'.seen && DecidedColumn(cats, es + [e], st'.columns[c0][i]) == Some(c0)
  {
    var st' := SquadState(st.columns[c := st.columns[c] + [e.player]], st.unmatched, st.seen + {e.player});
    forall c0, i | 0 <= c0 < 4 && 0 <= i < |st'.columns[c0]|
      ensures st'.columns[c0][i] in st'.seen && DecidedColumn(cats, es + [e], st'.columns[c0][i]) == Some(c0)
    {
      if c0 == c && i == |st.columns[c]| {
        assert st'.columns[c0][i] == e.player;
      } else {
        assert st'.columns[c0][i] == st.columns[c0][i];
      }
    }
  }

  lemma NewPlayerOrdered(cats: map<string, string>, es: seq<LineupEntry>, st: SquadState, e: LineupEntry, c: nat)
    requires Explains(cats, es, st) && e.player !in st.seen && c < 4
    requires MatchesKept(cats, es, e) && FirstMatched(cats, es + [e], e.player) == Some(|es|)
    ensures var st' := SquadState(st.columns[c := st.columns[c] + [e.player]], st.unmatched, st.seen + {e.player});
      forall c0, i, j :: 0 <= c0 < 4 && 0 <= i < j < |st'.columns[c0]| ==>
        FirstMatched(cats, es + [e], st'.columns[c0][i]).value < FirstMatched(cats, es + [e], st'.columns[c0][j]).value
  {
    var st' := SquadState(st.columns[c := st.columns[c] + [e.player]], st.unmatched, st.seen + {e.player});
    forall c0, i, j | 0 <= c0 < 4 && 0 <= i < j < |st'.columns[c0]|
      ensures FirstMatched(cats, es + [e], st'.columns[c0][i]).value < FirstMatched(cats, es + [e], st'.columns[c0][j]).value
    {
      assert st'.columns[c0][i] == st.columns[c0][i];
      if c0 == c && j == |st.columns[c]| {
        assert st'.columns[c0][j] == e.player;
      } else {
        assert st'.columns[c0][j] == st.columns[c0][j];
      }
    }
  }

  lemma {:induction false} PlaceAllExplains(cats: map<string, string>, es: seq<LineupEntry>)
    requires PlaceAll(cats, EmptySquad, es).Ok?
    ensures Explains(cats, es, PlaceAll(cats, EmptySquad, es).value)
  {
    if es != [] {
      var p := es[..|es| - 1];
      PlaceAllExplains(cats, p);
      PlaceExplains(cats, p, PlaceAll(cats, EmptySquad, p).value, es[|es| - 1]);
      assert p + [es[|es| - 1]] == es;
    }
  }

  lemma {:induction false} CategorizeOkHasNoMissing(cats: map<string, string>, rows: seq<Tactics>)
    requires Categorize(cats, rows).Ok?
    ensures forall i :: 0 <= i < |rows| ==> !rows[i].Missing?
  {
    if rows != [] {
      var p := rows[..|rows| - 1];
      assert Categorize(cats, p).Ok?;
      CategorizeOkHasNoMissing(cats, p);
      assert forall i :: 0 <= i < |p| ==> rows[i] == p[i];
    }
  }

  /** The positions the loop records as unmatched, in entry order with
      repeats: those of entries whose player was not placed by an earlier
      entry and whose position is not a key. */
  function UnmatchedOf(cats: map<string, string>, es: seq<LineupEntry>): seq<string> {
    if es == [] then []
    else
      var p, e := es[..|es| - 1], es[|es| - 1];
      UnmatchedOf(cats, p) + (if FirstMatched(cats, p, e.player).None? && e.position !in cats then [e.position] else [])
  }

  /** A successful placement leaves exactly those positions unmatched. */
  lemma {:induction false} PlaceAllUnmatched(cats: map<string, string>, es: seq<LineupEntry>)
    requires PlaceAll(cats, EmptySquad, es).Ok?
    ensures PlaceAll(cats, EmptySquad, es).value.unmatched == UnmatchedOf(cats, es)
  {
    if es != [] {
      var p, e := es[..|es| - 1], es[|es| - 1];
      assert PlaceAll(cats, EmptySquad, p).Ok?;
      PlaceAllUnmatched(cats, p);
      PlaceAllExplains(cats, p);
      var st := PlaceAll(cats, EmptySquad, p).value;
      assert e.player in st.seen <==> FirstMatched(cats, p, e.player).Some?;
    }
  }

  /** Entry `k` raises: its player was not placed before it, its position is
      a key, but that key maps to a name outside the four categories. */
  predicate BadEntry(cats: map<string, string>, es: seq<LineupEntry>, k: nat)
    requires k < |es|
  {
    && FirstMatched(cats, es[..k], es[k].player).None?
    && es[k].position in cats
    && CategoryIndex(cats[es[k].position]).None?
  }

  lemma BadEntryPrefix(cats: map<string, string>, es: seq<LineupEntry>, n: nat, k: nat)
    requires k < n <= |es|
    ensures BadEntry(cats, es[..n], k) <==> BadEntry(cats, es, k)
  {
    assert es[..n][..k] == es[..k];
  }

  /** Placing from empty lists raises exactly when some entry is bad. */
  lemma {:induction false} PlaceAllErr(cats: map<string, string>, es: seq<LineupEntry>)
    ensures PlaceAll(cats, EmptySquad, es).Err? <==> exists k :: 0 <= k < |es| && BadEntry(cats, es, k)
  {
    if es != [] {
      var n := |es| - 1;
      var p, e := es[..n], es[n];
      PlaceAllErr(cats, p);
      forall k | 0 <= k < n ensures BadEntry(cats, p, k) <==> BadEntry(cats, es, k) {
        BadEntryPrefix(cats, es, n, k);
      }
      if PlaceAll(cats, EmptySquad, p).Ok? {
        PlaceAllExplains(cats, p);
        var st := PlaceAll(cats, EmptySquad, p).value;
        assert e.player in st.seen <==> FirstMatched(cats, p, e.player).Some?;
        assert es[..n] == p;
        if PlaceAll(cats, EmptySquad, es).Err? {
          assert BadEntry(cats, es, n);
        } else {
          assert !BadEntry(cats, es, n);
        }
      } else {
        var k :| 0 <= k < n && BadEntry(cats, p, k);
        assert BadEntry(cats, es, k);
      }
    }
  }

  /** `squad_categorized` raises exactly when some non-placeholder row has a
      missing lineup (a TypeError) or some entry is bad (a KeyError). */
  lemma CategorizeErr(cats: map<string, string>, rows: seq<Tactics>)
    ensures Categorize(cats, rows).Err? <==>
      (exists i :: 0 <= i < |rows| && rows[i].Missing?) ||
      (exists k :: 0 <= k < |AllEntries(rows)| && BadEntry(cats, AllEntries(rows), k))
  {
    PlaceAllErr(cats, AllEntries(rows));
    if Categorize(cats, rows).Ok? {
      CategorizeOkHasNoMissing(cats, rows);
      CategorizeIsPlaceAll(cats, rows);
    } else if forall i :: 0 <= i < |rows| ==> !rows[i].Missing? {
      CategorizeIsPlaceAll(cats, rows);
    }
  }

  /** What `squad_categorized` promises about its lists, over the entries of
      all lineups in order: each player is listed at most once across the
      four categories; a player is listed exactly when some entry names them
      with a position that is a key, and then under the category of the
      first such entry; each category lists players in the order of those
      entries; the unmatched positions are none of the keys, and are the
      positions of the entries whose player was not yet placed, in entry
      order with repeats. */
  lemma SquadPlacement(cats: map<string, string>, rows: seq<Tactics>)
    requires Categorize(cats, rows).Ok?
    ensures var st := Categorize(cats, rows).value;
      var es := AllEntries(rows);
      && (forall c, d, i, j ::
            (0 <= c < 4 && 0 <= d < 4 && 0 <= i < |st.columns[c]| && 0 <= j < |st.columns[d]| &&
             st.columns[c][i] == st.columns[d][j]) ==> c == d && i == j)
      && (forall c, i :: 0 <= c < 4 && 0 <= i < |st.columns[c]| ==>
            DecidedColumn(cats, es, st.columns[c][i]) == Some(c))
      && (forall p :: FirstMatched(cats, es, p).Some? ==>
            DecidedColumn(cats, es, p).Some? && p in st.columns[DecidedColumn(cats, es, p).value])
      && (forall c, i, j :: 0 <= c < 4 && 0 <= i < j < |st.columns[c]| ==>
            FirstMatched(cats, es, st.columns[c][i]).value < FirstMatched(cats, es, st.columns[c][j]).value)
      && (forall i :: 0 <= i < |st.unmatched| ==> st.unmatched[i] !in cats)
      && st.unmatched == UnmatchedOf(cats, es)
  {
    CategorizeOkHasNoMissing(cats, rows);
    CategorizeIsPlaceAll(cats, rows);
    var es := AllEntries(rows);
    PlaceAllExplains(cats, es);
    PlaceAllUnmatched(cats, es);
    var st := Categorize(cats, rows).value;
    forall c, d, i, j | 0 <= c < 4 && 0 <= d < 4 && 0 <= i < |st.columns[c]| &&
        0 <= j < |st.columns[d]| && st.columns[c][i] == st.columns[d][j]
      ensures c == d && i == j
    {
      assert DecidedColumn(cats, es, st.columns[c][i]) == Some(c);
      assert DecidedColumn(cats, es, st.columns[d][j]) == Some(d);
    }
  }

  /** The two results of `squad_categorized`: the DataFrame built from the
      four lists, as rows of optional cells (shorter lists padded with
      missing values), and the unmatched positions. */
  datatype SquadResult = SquadResult(frame: seq<seq<Option<string>>>, unmatched: seq<string>)

  function MaxLength(columns: Columns): (n: nat)
    ensures forall c :: 0 <= c < 4 ==> |columns[c]| <= n
    ensures n == 0 || exists c :: 0 <= c < 4 && |columns[c]| == n
  {
    var a := if |columns[0]| < |columns[1]| then |columns[1]| else |columns[0]|;
    var b := if |columns[2]| < |columns[3]| then |columns[3]| else |columns[2]|;
    if a < b then b else a
  }

  /** `pd.DataFrame(dict([(k, pd.Series(v)) ...]))`: one column per category
      in key order, as long as the longest list; a column holds its list from
      the top and is missing below it. */
  function SquadFrame(columns: Columns): (rows: seq<seq<Option<string>>>)
    ensures forall c :: 0 <= c < 4 ==> |columns[c]| <= |rows|
    ensures |rows| == 0 || exists c :: 0 <= c < 4 && |columns[c]| == |rows|
    ensures forall r :: 0 <= r < |rows| ==> |rows[r]| == |CategoryNames|
    ensures forall r, c :: 0 <= r < |rows| && 0 <= c < 4 ==>
      (rows[r][c].Some? <==> r < |columns[c]|) && (r < |columns[c]| ==> rows[r][c] == Some(columns[c][r]))
  {
    seq(MaxLength(columns), r => seq(4, c requires 0 <= c < 4 => if 0 <= r < |columns[c]| then Some(columns[c][r]) else None))
  }

  function SquadSpec(cats: map<string, string>, rows: seq<Tactics>): Result<SquadResult> {
    var st := Categorize(cats, rows);
    if st.Err? then Err(st.error) else Ok(SquadResult(SquadFrame(st.value.columns), st.value.unmatched))
  }

  lemma {:induction false} PlaceAllSticky(cats: map<string, string>, st: SquadState, es: seq<LineupEntry>, j: nat)
    requires j <= |es| && PlaceAll(cats, st, es[..j]).Err?
    ensures PlaceAll(cats, st, es) == PlaceAll(cats, st, es[..j])
    decreases |es| - j
  {
    if j < |es| {
      var p := es[..|es| - 1];
      assert p[..j] == es[..j];
      PlaceAllSticky(cats, st, p, j);
    } else {
      assert es[..j] == es;
    }
  }

  lemma {:induction false} CategorizeSticky(cats: map<string, string>, rows: seq<Tactics>, j: nat)
    requires j <= |rows| && Categorize(cats, rows[..j]).Err?
    ensures Categorize(cats, rows) == Categorize(cats, rows[..j])
    decreases |rows| - j
  {
    if j < |rows| {
      var p := rows[..|rows| - 1];
      assert p[..j] == rows[..j];
      CategorizeSticky(cats, p, j);
    } else {
      assert rows[..j] == rows;
    }
  }

  /** The inner loop of `squad_categorized` over one lineup's entries:
      a player not yet listed whose position is a key is appended to the
      list of that position's category, an unknown position is recorded as
      unmatched, and a category outside the four keys raises `KeyError`. */
  method PlaceLineup(cats: map<string, string>, start: SquadState, es: seq<LineupEntry>) returns (r: Result<SquadState>)
    ensures r == PlaceAll(cats, start, es)
  {
    var columns, unmatched, allPlayers := start.columns, start.unmatched, start.seen;
    var j := 0;
    while j < |es|
      invariant 0 <= j <= |es|
      invariant PlaceAll(cats, start, es[..j]) == Ok(SquadState(columns, unmatched, allPlayers))
    {
      assert es[..j + 1][..j] == es[..j];
      var position, playerName := es[j].position, es[j].player;
      if playerName !in allPlayers {
        if position in cats {
          var category := CategoryIndex(cats[position]);
          if category.None? {
            PlaceAllSticky(cats, start, es, j + 1);
            return Err("KeyError");
          }
          columns := columns[category.value := columns[category.value] + [playerName]];
          allPlayers := allPlayers + {playerName};
        } else {
          unmatched := unmatched + [position];
        }
      }
      j := j + 1;
    }
    assert es[..|es|] == es;
    r := Ok(SquadState(columns, unmatched, allPlayers));
  }

  /** `squad_categorized(categories, team_data)` on the `tactics` column:
      the nested loops over the lineups, raising (here `Err`) on a missing
      lineup or on a category outside the four keys. */
  method SquadCategorized(cats: map<string, string>, tactics: seq<Tactics>) returns (r: Result<SquadResult>)
    ensures r == SquadSpec(cats, tactics)
  {
    var columns: Columns := [[], [], [], []];
    var unmatched: seq<string> := [];
    var allPlayers: set<string> := {};
    var i := 0;
    while i < |tactics|
      invariant 0 <= i <= |tactics|
      invariant Categorize(cats, tactics[..i]) == Ok(SquadState(columns, unmatched, allPlayers))
    {
      assert tactics[..i + 1][..i] == tactics[..i];
      var row := tactics[i];
      if row.Missing? {
        CategorizeSticky(cats, tactics, i + 1);
        return Err("TypeError");
      }
      if row.Lineup? {
        var placed := PlaceLineup(cats, SquadState(columns, unmatched, allPlayers), row.entries);
        if placed.Err? {
          CategorizeSticky(cats, tactics, i + 1);
          return Err(placed.error);
        }
        columns, unmatched, allPlayers := placed.value.columns, placed.value.unmatched, placed.value.seen;
      }
      i := i + 1;
    }
    assert tactics[..|tactics|] == tactics;
    r := Ok(SquadResult(SquadFrame(columns), unmatched));
  }

  /** The columns of an event row that the team metrics and the summary
      read: `type.name`, `shot.outcome.name`, `shot.type.name`,
      `tactics.formation`, and the row's index label. */
  datatype TeamEvent = TeamEvent(
    index: int, kind: Option<string>, outcome: Option<string>,
    shotType: Option<string>, formation: Option<int>)

  predicate IsShot(e: TeamEvent) { e.kind == Some("Shot") }
  predicate IsGoal(e: TeamEvent) { e.outcome == Some("Goal") }

  function GoalIndicator(e: TeamEvent): nat { if IsGoal(e) then 1 else 0 }

  /** The number of goals among `shots`. */
  function CountGoals(shots: seq<TeamEvent>): nat {
    if shots == [] then 0 else CountGoals(shots[..|shots| - 1]) + GoalIndicator(shots[|shots| - 1])
  }

  /** `(outcome == 'Goal').astype(int).cumsum()`: the running goal count,
      each entry the previous one plus the row's own goal. */
  function GoalTotals(shots: seq<TeamEvent>): (r: seq<nat>)
    ensures |r| == |shots|
  {
    if shots == [] then []
    else
      var prev := GoalTotals(shots[..|shots| - 1]);
      prev + [(if prev == [] then 0 else prev[|prev| - 1]) + GoalIndicator(shots[|shots| - 1])]
  }

  /** Entry `i` of the running total is the number of goals among the first
      `i + 1` shots. */
  lemma {:induction false} GoalTotalsCount(shots: seq<TeamEvent>)
    ensures forall i :: 0 <= i < |shots| ==> GoalTotals(shots)[i] == CountGoals(shots[..i + 1])
  {
    if shots != [] {
      var p := shots[..|shots| - 1];
      GoalTotalsCount(p);
      forall i | 0 <= i < |shots| ensures GoalTotals(shots)[i] == CountGoals(shots[..i + 1]) {
        if i < |p| {
          assert shots[..i + 1] == p[..i + 1];
        } else {
          assert shots[..i + 1] == shots;
          if p != [] {
            assert p[..|p|] == p;
          }
        }
      }
    }
  }

  lemma {:induction false} CountGoalsMonotone(shots: seq<TeamEvent>, i: nat, j: nat)
    requires i <= j <= |shots|
    ensures CountGoals(shots[..i]) <= CountGoals(shots[..j])
    decreases j - i
  {
    if i < j {
      CountGoalsMonotone(shots, i, j - 1);
      assert shots[..j][..j - 1] == shots[..j - 1];
    }
  }

  /** The running total starts at the first shot's own goal and rises by
      exactly one at each goal and otherwise stays. */
  lemma GoalTotalsStep(shots: seq<TeamEvent>)
    ensures |shots| > 0 ==> GoalTotals(shots)[0] == GoalIndicator(shots[0])
    ensures forall i :: 0 <= i < |shots| - 1 ==>
      GoalTotals(shots)[i + 1] == GoalTotals(shots)[i] + GoalIndicator(shots[i + 1])
  {
    if |shots| > 0 {
      GoalTotalsFirst(shots);
    }
    forall i | 0 <= i < |shots| - 1
      ensures GoalTotals(shots)[i + 1] == GoalTotals(shots)[i] + GoalIndicator(shots[i + 1])
    {
      GoalTotalsStepAt(shots, i);
    }
  }

  lemma GoalTotalsFirst(shots: seq<TeamEvent>)
    requires |shots| > 0
    ensures GoalTotals(shots)[0] == GoalIndicator(shots[0])
  {
    GoalTotalsCount(shots);
    assert shots[..1] == [shots[0]];
    assert [shots[0]][..0] == [];
  }

  lemma GoalTotalsStepAt(shots: seq<TeamEvent>, i: nat)
    requires i + 1 < |shots|
    ensures GoalTotals(shots)[i + 1] == GoalTotals(shots)[i] + GoalIndicator(shots[i + 1])
  {
    GoalTotalsCount(shots);
    CountGoalsPrefixStep(shots, i + 1);
  }

  lemma CountGoalsPrefixStep(shots: seq<TeamEvent>, n: nat)
    requires 0 < n < |shots|
    ensures CountGoals(shots[..n + 1]) == CountGoals(shots[..n]) + GoalIndicator(shots[n])
  {
    assert shots[..n + 1][..n] == shots[..n];
  }

  /** The running total never decreases and ends at the number of goals. */
  lemma GoalTotalsMonotone(shots: seq<TeamEvent>)
    ensures forall i, j :: 0 <= i <= j < |shots| ==> GoalTotals(shots)[i] <= GoalTotals(shots)[j]
    ensures |shots| > 0 ==> GoalTotals(shots)[|shots| - 1] == CountGoals(shots)
  {
    GoalTotalsCount(shots);
    assert shots[..|shots|] == shots;
    forall i, j | 0 <= i <= j < |shots| ensures GoalTotals(shots)[i] <= GoalTotals(shots)[j] {
      CountGoalsMonotone(shots, i + 1, j + 1);
    }
  }

  /** The `goal_total` column of `calculate_team_metrics` has one value per
      Shot row of the team's events: the shot rows are kept in order and
      nothing else is. */
  function TeamGoalTotals(events: seq<TeamEvent>): (r: seq<nat>)
    ensures |r| == |Filter(events, IsShot)|
  {
    GoalTotals(Filter(events, IsShot))
  }

  /** Index of the first occurrence of `x` in `s`. */
  function FirstPos<T(==)>(s: seq<T>, x: T): (k: nat)
    requires x in s
    ensures k < |s| && s[k] == x && forall j :: 0 <= j < k ==> s[j] != x
  {
    if s[0] == x then 0 else 1 + FirstPos(s[1..], x)
  }

  lemma FirstPosPrefix<T>(s: seq<T>, x: T, n: nat)
    requires n <= |s| && x in s[..n]
    ensures FirstPos(s, x) == FirstPos(s[..n], x)
  {
    var k := FirstPos(s[..n], x);
    var m := FirstPos(s, x);
    assert s[k] == x;
    assert m <= k;
    assert s[..n][m] == x;
  }

  /** Every element of `s` first appears no later than the first appearance
      of `f`. */
  ghost predicate AppearsLast<T>(s: seq<T>, f: T)
    requires f in s
  {
    forall i :: 0 <= i < |s| ==> FirstPos(s, s[i]) <= FirstPos(s, f)
  }

  /** Appending an element already present keeps the latest-appearing one. */
  lemma AppearsLastAppendOld<T>(p: seq<T>, x: T, f: T)
    requires f in p && x in p && AppearsLast(p, f)
    ensures f in p + [x] && AppearsLast(p + [x], f)
  {
    var s := p + [x];
    assert s[..|p|] == p;
    FirstPosPrefix(s, f, |p|);
    forall i | 0 <= i < |s| ensures FirstPos(s, s[i]) <= FirstPos(s, f) {
      var j := if i < |p| then i else FirstPos(p, x);
      assert s[i] == p[j];
      FirstPosPrefix(s, p[j], |p|);
    }
  }

  /** Appending a new element makes it the latest-appearing one. */
  lemma AppearsLastAppendNew<T>(p: seq<T>, x: T)
    requires x !in p
    ensures x in p + [x] && AppearsLast(p + [x], x)
  {
    var s := p + [x];
    assert FirstPos(s, x) == |p|;
  }

  /** `Distinct` is never empty on a non-empty sequence, and its last
      element is the latest-appearing one. */
  ghost predicate LastDistinctIsLatest<T>(s: seq<T>) {
    |Distinct(s)| > 0 && Distinct(s)[|Distinct(s)| - 1] in s
      && AppearsLast(s, Distinct(s)[|Distinct(s)| - 1])
  }

  lemma {:induction false} LastDistinctAppearsLast<T>(s: seq<T>)
    requires |s| > 0
    ensures LastDistinctIsLatest(s)
  {
    var p, x := s[..|s| - 1], s[|s| - 1];
    assert s == p + [x];
    if p == [] {
      assert Distinct(s) == [x];
      AppearsLastAppendNew(p, x);
    } else {
      LastDistinctAppearsLast(p);
      LastDistinctSnoc(p, x);
    }
  }

  lemma LastDistinctSnoc<T>(p: seq<T>, x: T)
    requires |p| > 0 && LastDistinctIsLatest(p)
    ensures LastDistinctIsLatest(p + [x])
  {
    DistinctSnoc(p, x);
    var dp := Distinct(p);
    if x in dp {
      AppearsLastAppendOld(p, x, dp[|dp| - 1]);
    } else {
      AppearsLastAppendNew(p, x);
    }
  }

  lemma DistinctSnoc<T>(p: seq<T>, x: T)
    requires |p| > 0
    ensures x in Distinct(p) ==> x in p && Distinct(p + [x]) == Distinct(p)
    ensures x !in Distinct(p) ==> x !in p && Distinct(p + [x]) == Distinct(p) + [x]
  {
    assert (p + [x])[..|p|] == p;
    if x in p {
      var i :| 0 <= i < |p| && p[i] == x;
      assert p[i] in Distinct(p);
    }
  }

  /** `unique()[-1]`: the value whose first appearance is the latest. */
  function EndingFormation<T(==)>(s: seq<T>): (f: T)
    requires |s| > 0
    ensures f in s && AppearsLast(s, f)
  {
    LastDistinctAppearsLast(s);
    var d := Distinct(s);
    d[|d| - 1]
  }

  /** The ending formation need not be the last row's: formations 442, 433,
      442 end on 433. */
  lemma EndingFormationIsNotLastRow()
    ensures EndingFormation([Some(442), Some(433), Some(442)]) == Some(433)
  {
    assert Distinct([Some(442)]) == [Some(442)];
    assert [Some(442), Some(433)][..1] == [Some(442)];
    assert [Some(442), Some(433), Some(442)][..2] == [Some(442), Some(433)];
  }

  datatype SummaryValue = FormationValue(formation: Option<int>) | CountValue(count: nat)

  function Formations(events: seq<TeamEvent>): (r: seq<Option<int>>)
    ensures |r| == |events| && forall i :: 0 <= i < |events| ==> r[i] == events[i].formation
  {
    if events == [] then [] else Formations(events[..|events| - 1]) + [events[|events| - 1].formation]
  }

  /** The row position of index label `want`, if any. */
  function LabelPos(events: seq<TeamEvent>, want: int): (r: Option<nat>)
    ensures r.Some? ==> (r.value < |events| && events[r.value].index == want
      && forall j :: 0 <= j < r.value ==> events[j].index != want)
    ensures r.None? ==> forall j :: 0 <= j < |events| ==> events[j].index != want
  {
    if events == [] then None
    else if events[0].index == want then Some(0)
    else
      var r := LabelPos(events[1..], want);
      if r.Some? then Some(r.value + 1) else None
  }

  /** `len` of the rows satisfying `p`. */
  function CountOf(events: seq<TeamEvent>, p: TeamEvent -> bool): nat {
    |Filter(events, p)|
  }

  predicate HasShotType(e: TeamEvent) { e.shotType.Some? }
  predicate IsPass(e: TeamEvent) { e.kind == Some("Pass") }
  predicate IsBallReceipt(e: TeamEvent) { e.kind == Some("Ball Receipt*") }

  const SummaryNames: seq<string> :=
    ["Starting Formation", "Ending Formation", "Shots", "Passes Attempted", "Passes Completed"]

  /** The five summary rows, in fixed order, for a frame whose row `start`
      carries index label 0. */
  function SummaryRows(events: seq<TeamEvent>, start: nat): (rows: seq<(string, SummaryValue)>)
    requires start < |events|
    ensures |rows| == 5
    ensures rows[0] == (SummaryNames[0], FormationValue(events[start].formation))
    ensures rows[1] == (SummaryNames[1], FormationValue(EndingFormation(Formations(events))))
    ensures rows[2] == (SummaryNames[2], CountValue(CountOf(events, HasShotType)))
    ensures rows[3] == (SummaryNames[3], CountValue(CountOf(events, IsPass)))
    ensures rows[4] == (SummaryNames[4], CountValue(CountOf(events, IsBallReceipt)))
  {
    [
      (SummaryNames[0], FormationValue(events[start].formation)),
      (SummaryNames[1], FormationValue(EndingFormation(Formations(events)))),
      (SummaryNames[2], CountValue(CountOf(events, HasShotType))),
      (SummaryNames[3], CountValue(CountOf(events, IsPass))),
      (SummaryNames[4], CountValue(CountOf(events, IsBallReceipt)))
    ]
  }

  /** `generate_team_summary_data(data)`. `data['tactics.formation'][0]`
      looks up the index LABEL 0, so a frame without that label (a filtered
      frame, or an empty one) raises a KeyError. Otherwise exactly five rows
      in fixed order: the formation of the first row labelled 0, the
      formation that first appears last, the number of rows with a shot
      type, of passes and of ball receipts. */
  function TeamSummary(events: seq<TeamEvent>): (r: Result<seq<(string, SummaryValue)>>)
    ensures r.Err? <==> forall j :: 0 <= j < |events| ==> events[j].index != 0
    ensures r.Ok? ==> exists start :: (0 <= start < |events| && events[start].index == 0
      && (forall j :: 0 <= j < start ==> events[j].index != 0)
      && r.value == SummaryRows(events, start))
  {
    var start := LabelPos(events, 0);
    if start.None? then Err("KeyError") else Ok(SummaryRows(events, start.value))
  }
}
