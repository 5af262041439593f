/** The match chart of `utils/plotly_viz.py`: one line per team for the
    cumulative expected goals and for the goal total, and shaded bands with
    labels for extra time and penalties when the match ran that long. */
module PlotlyViz {
  import opened Basics
  import opened Seqs

  /** One row of an input frame: the team, the minute and the plotted value
      (`Cumulative xG` or `Total Goals`). */
  datatype SeriesRow = SeriesRow(team: string, minutes: int, value: real)

  /** A line of the chart: its legend name, its points, and whether it is
      dotted (the xG lines) or solid (the goal lines). */
  datatype Trace = Trace(name: string, xs: seq<int>, ys: seq<real>, dotted: bool)

  /** A shaded band from `x0` to `x1` across the plot's full height. */
  datatype Band = Band(x0: int, x1: int, fill: string)

  /** A vertical label at `x`, half-way up the plot. */
  datatype Note = Note(x: real, text: string)

  datatype Figure = Figure(traces: seq<Trace>, shapes: seq<Band>, annotations: seq<Note>)

  const ExtraTimeFill := "rgba(255, 223, 186, 0.4)"
  const PenaltiesFill := "rgba(255, 99, 71, 0.4)"
  const XgSuffix := " - Cumulative xG"
  const GoalSuffix := " - Goal Total"

  function Teams(rows: seq<SeriesRow>): (r: seq<string>)
    ensures |r| == |rows| && forall i :: 0 <= i < |rows| ==> r[i] == rows[i].team
  {
    if rows == [] then [] else Teams(rows[..|rows| - 1]) + [rows[|rows| - 1].team]
  }

  /** `data[data['Team'] == team]`: that team's rows, in order. */
  function RowsOf(rows: seq<SeriesRow>, team: string): (r: seq<SeriesRow>)
    ensures |r| <= |rows|
    ensures forall i :: 0 <= i < |r| ==> r[i].team == team
  {
    if rows == [] then []
    else
      var last := rows[|rows| - 1];
      RowsOf(rows[..|rows| - 1], team) + (if last.team == team then [last] else [])
  }

  function MinutesOf(rows: seq<SeriesRow>): (r: seq<int>)
    ensures |r| == |rows| && forall i :: 0 <= i < |rows| ==> r[i] == rows[i].minutes
  {
    if rows == [] then [] else MinutesOf(rows[..|rows| - 1]) + [rows[|rows| - 1].minutes]
  }

  function ValuesOf(rows: seq<SeriesRow>): (r: seq<real>)
    ensures |r| == |rows| && forall i :: 0 <= i < |rows| ==> r[i] == rows[i].value
  {
    if rows == [] then [] else ValuesOf(rows[..|rows| - 1]) + [rows[|rows| - 1].value]
  }

  /** The line of one team. */
  function TeamTrace(rows: seq<SeriesRow>, team: string, suffix: string, dotted: bool): Trace {
    var own := RowsOf(rows, team);
    Trace(team + suffix, MinutesOf(own), ValuesOf(own), dotted)
  }

  /** `data['minutes'].max()`: `None` for an empty frame, whose maximum is
      NaN. */
  function MaxMinute(rows: seq<SeriesRow>): (r: Option<int>)
    ensures r.None? <==> rows == []
    ensures r.Some? ==> (forall i :: 0 <= i < |rows| ==> rows[i].minutes <= r.value)
    ensures r.Some? ==> exists i :: 0 <= i < |rows| && rows[i].minutes == r.value
  {
    if rows == [] then None
    else
      var prev := MaxMinute(rows[..|rows| - 1]);
      var last := rows[|rows| - 1].minutes;
      if prev.None? || prev.value < last then Some(last) else prev
  }

  /** Python's `max(a, b)`: `b` only when `b > a`. Every comparison with NaN
      is false, so a NaN first argument wins and a NaN second one loses. */
  function PyMax(a: Option<int>, b: Option<int>): (r: Option<int>)
    ensures a.None? ==> r.None?
    ensures a.Some? && b.None? ==> r == a
    ensures a.Some? && b.Some? ==>
      r.Some? && r.value >= a.value && r.value >= b.value && (r.value == a.value || r.value == b.value)
  {
    if a.Some? && b.Some? && b.value > a.value then b else a
  }

  /** When both frames have rows, the chart's extent is the larger of their
      latest minutes and bounds every minute of both. */
  lemma MaxMinutesBoundsAll(xg: seq<SeriesRow>, goals: seq<SeriesRow>)
    requires xg != [] && goals != []
    ensures var m := PyMax(MaxMinute(xg), MaxMinute(goals));
      && m.Some?
      && (forall i :: 0 <= i < |xg| ==> xg[i].minutes <= m.value)
      && (forall i :: 0 <= i < |goals| ==> goals[i].minutes <= m.value)
  {
  }

  /** The lines for `teams`, one per team, in that order. */
  function TeamLines(rows: seq<SeriesRow>, teams: seq<string>, suffix: string, dotted: bool): (r: seq<Trace>)
    ensures |r| == |teams|
    ensures forall k :: 0 <= k < |teams| ==> r[k] == TeamTrace(rows, teams[k], suffix, dotted)
  {
    if teams == [] then []
    else TeamLines(rows, teams[..|teams| - 1], suffix, dotted) + [TeamTrace(rows, teams[|teams| - 1], suffix, dotted)]
  }

  /** The trace loop of `plot_metrics_plotly`: one `add_trace` per team of
      `teams`, in that order. */
  method TeamTraces(rows: seq<SeriesRow>, teams: seq<string>, suffix: string, dotted: bool)
    returns (traces: seq<Trace>)
    ensures traces == TeamLines(rows, teams, suffix, dotted)
  {
    traces := [];
    for k := 0 to |teams|
      invariant traces == TeamLines(rows, teams[..k], suffix, dotted)
    {
      assert teams[..k + 1][..k] == teams[..k];
      var own := RowsOf(rows, teams[k]);
      traces := traces + [Trace(teams[k] + suffix, MinutesOf(own), ValuesOf(own), dotted)];
    }
    assert teams[..|teams|] == teams;
  }

  /** The shading steps of `plot_metrics_plotly`: the extra-time band and
      label when the latest minute is past 90, then the penalties band and
      label when it is past 120; a NaN extent draws neither. */
  method AddBands(maxMinutes: Option<int>) returns (shapes: seq<Band>, annotations: seq<Note>)
    ensures |shapes| == |annotations| <= 2
    ensures |shapes| >= 1 <==> maxMinutes.Some? && maxMinutes.value > 90
    ensures |shapes| == 2 <==> maxMinutes.Some? && maxMinutes.value > 120
    ensures |shapes| >= 1 ==>
      shapes[0] == Band(90, Min(120, maxMinutes.value), ExtraTimeFill) && annotations[0] == Note(105.0, "Extra Time")
    ensures |shapes| == 2 ==>
      shapes[1] == Band(120, maxMinutes.value, PenaltiesFill)
      && annotations[1] == Note((120 + maxMinutes.value) as real / 2.0, "Penalties")
  {
    shapes := [];
    annotations := [];
    if maxMinutes.Some? && maxMinutes.value > 90 {
      shapes := shapes + [Band(90, Min(120, maxMinutes.value), ExtraTimeFill)];
      annotations := annotations + [Note(105.0, "Extra Time")];
    }
    if maxMinutes.Some? && maxMinutes.value > 120 {
      shapes := shapes + [Band(120, maxMinutes.value, PenaltiesFill)];
      annotations := annotations + [Note((120 + maxMinutes.value) as real / 2.0, "Penalties")];
    }
  }

  /** `plot_metrics_plotly(xg_data, goal_data)`: one dotted line per
      distinct team of the xG frame, in first-appearance order, then one
      solid line per distinct team of the goal frame, then the bands for
      the larger of the two frames' latest minutes. */
  method PlotMetrics(xg: seq<SeriesRow>, goals: seq<SeriesRow>) returns (fig: Figure)
    ensures fig.traces == TeamLines(xg, Distinct(Teams(xg)), XgSuffix, true)
      + TeamLines(goals, Distinct(Teams(goals)), GoalSuffix, false)
    ensures var m := PyMax(MaxMinute(xg), MaxMinute(goals));
      && |fig.shapes| == |fig.annotations| <= 2
      && (|fig.shapes| >= 1 <==> m.Some? && m.value > 90)
      && (|fig.shapes| == 2 <==> m.Some? && m.value > 120)
      && (|fig.shapes| >= 1 ==>
            fig.shapes[0] == Band(90, Min(120, m.value), ExtraTimeFill) && fig.annotations[0] == Note(105.0, "Extra Time"))
      && (|fig.shapes| == 2 ==>
            fig.shapes[1] == Band(120, m.value, PenaltiesFill)
            && fig.annotations[1] == Note((120 + m.value) as real / 2.0, "Penalties"))
  {
    var xgTraces := TeamTraces(xg, Distinct(Teams(xg)), XgSuffix, true);
    var goalTraces := TeamTraces(goals, Distinct(Teams(goals)), GoalSuffix, false);
    var maxMinutes := PyMax(MaxMinute(xg), MaxMinute(goals));
    var shapes, annotations := AddBands(maxMinutes);
    fig := Figure(xgTraces + goalTraces, shapes, annotations);
  }

  /** With an empty xG frame the extent is NaN and no band is drawn,
      whatever the goal frame holds; with the frames swapped the goal
      frame's latest minute would be used. */
  lemma EmptyXgFrameHidesBands(goals: seq<SeriesRow>)
    requires goals != []
    ensures PyMax(MaxMinute([]), MaxMinute(goals)).None?
    ensures PyMax(MaxMinute(goals), MaxMinute([])) == MaxMinute(goals)
  {
  }

  /** The number of points drawn by the lines of `teams`. */
  function PointCount(rows: seq<SeriesRow>, teams: seq<string>): nat {
    if teams == [] then 0
    else PointCount(rows, teams[..|teams| - 1]) + |RowsOf(rows, teams[|teams| - 1])|
  }

  function Points(lines: seq<Trace>): nat {
    if lines == [] then 0 else Points(lines[..|lines| - 1]) + |lines[|lines| - 1].xs|
  }

  lemma {:induction false} PointsOfLines(rows: seq<SeriesRow>, teams: seq<string>, suffix: string, dotted: bool)
    ensures Points(TeamLines(rows, teams, suffix, dotted)) == PointCount(rows, teams)
  {
    if teams != [] {
      var init := teams[..|teams| - 1];
      PointsOfLines(rows, init, suffix, dotted);
      var lines := TeamLines(rows, teams, suffix, dotted);
      assert lines[..|lines| - 1] == TeamLines(rows, init, suffix, dotted);
    }
  }

  lemma {:induction false} RowsOfSnoc(rows: seq<SeriesRow>, x: SeriesRow, team: string)
    ensures RowsOf(rows + [x], team) == RowsOf(rows, team) + (if x.team == team then [x] else [])
  {
    assert (rows + [x])[..|rows|] == rows;
  }

  /** One more row adds one point, to its own team's line, when that team
      has a line. */
  lemma {:induction false} PointCountStep(rows: seq<SeriesRow>, x: SeriesRow, teams: seq<string>)
    requires NoDuplicates(teams)
    ensures PointCount(rows + [x], teams) == PointCount(rows, teams) + (if x.team in teams then 1 else 0)
  {
    if teams != [] {
      var init, u := teams[..|teams| - 1], teams[|teams| - 1];
      PointCountStep(rows, x, init);
      RowsOfSnoc(rows, x, u);
      assert x.team in teams <==> x.team in init || x.team == u by {
        assert teams == init + [u];
      }
      if x.team == u {
        assert x.team !in init;
      }
    }
  }

  /** Lines for distinct teams that cover every row's team hold one point
      per row. */
  lemma {:induction false} PointCountCovers(rows: seq<SeriesRow>, teams: seq<string>)
    requires NoDuplicates(teams)
    requires forall i :: 0 <= i < |rows| ==> rows[i].team in teams
    ensures PointCount(rows, teams) == |rows|
  {
    if rows == [] {
      PointCountEmpty(teams);
    } else {
      var init, x := rows[..|rows| - 1], rows[|rows| - 1];
      PointCountCovers(init, teams);
      assert rows == init + [x];
      PointCountStep(init, x, teams);
    }
  }

  lemma {:induction false} PointCountEmpty(teams: seq<string>)
    ensures PointCount([], teams) == 0
  {
    if teams != [] {
      PointCountEmpty(teams[..|teams| - 1]);
    }
  }

  /** Each row of a frame is drawn exactly once: the lines of its distinct
      teams hold as many points as the frame has rows. */
  lemma {:induction false} EveryRowDrawnOnce(rows: seq<SeriesRow>, suffix: string, dotted: bool)
    ensures Points(TeamLines(rows, Distinct(Teams(rows)), suffix, dotted)) == |rows|
  {
    var teams := Distinct(Teams(rows));
    PointsOfLines(rows, teams, suffix, dotted);
    forall i | 0 <= i < |rows|
      ensures rows[i].team in teams
    {
      assert Teams(rows)[i] == rows[i].team;
    }
    PointCountCovers(rows, teams);
  }

  lemma SuffixCancels(a: string, b: string, suffix: string)
    ensures a + suffix == b + suffix ==> a == b
  {
    if a + suffix == b + suffix {
      assert a == (a + suffix)[..|a|];
    }
  }

  /** Lines drawn for distinct teams have distinct legend names. */
  lemma {:induction false} LineNamesDistinct(rows: seq<SeriesRow>, teams: seq<string>, suffix: string, dotted: bool)
    requires NoDuplicates(teams)
    ensures var lines := TeamLines(rows, teams, suffix, dotted);
      forall i, j :: 0 <= i < j < |lines| ==> lines[i].name != lines[j].name
  {
    var lines := TeamLines(rows, teams, suffix, dotted);
    forall i, j | 0 <= i < j < |lines|
      ensures lines[i].name != lines[j].name
    {
      SuffixCancels(teams[i], teams[j], suffix);
    }
  }

  /** In particular the xG lines, one per distinct team of the frame, have
      distinct legend names. */
  lemma XgLineNamesDistinct(xg: seq<SeriesRow>)
    ensures var lines := TeamLines(xg, Distinct(Teams(xg)), XgSuffix, true);
      forall i, j :: 0 <= i < j < |lines| ==> lines[i].name != lines[j].name
  {
    LineNamesDistinct(xg, Distinct(Teams(xg)), XgSuffix, true);
  }
}
