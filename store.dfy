/**
 * The rank tracker's database: the three tables `init_db` creates
 * (`rankings`, `settings`, `schedule_config`), held in memory as sequences
 * of rows in insertion order, with the per-table counter that sqlite keeps
 * for an `INTEGER PRIMARY KEY AUTOINCREMENT` column.
 */
module Store {
  import opened Wrappers
  import opened Text

  /** One row of a table: its `AUTOINCREMENT` id and its other columns. */
  datatype Row<T> = Row(id: nat, fields: T)

  /** The columns of `rankings` besides `id`; a rank of `None` is stored as NULL. */
  datatype Observation = Observation(keyword: string, city: string, targetUrl: string, rank: Option<nat>, date: string)

  /** The columns of `settings` besides `id`: one keyword/city pair to track.
      The table stores strings; the grid functions below are stated for any
      field type, since their order facts do not depend on it. */
  datatype Tracked<S> = Tracked(keyword: S, city: S, targetUrl: S)

  /** The columns of `schedule_config` besides `id`. */
  datatype Trigger = Trigger(day: string, time: string)

  /** The ids of a table, in row order, increase strictly and none is above
      the largest id the table has handed out. */
  ghost predicate WellNumbered<T>(rows: seq<Row<T>>, last: nat)
  {
    (forall i, j :: 0 <= i < j < |rows| ==> rows[i].id < rows[j].id)
    && (forall i :: 0 <= i < |rows| ==> rows[i].id <= last)
  }

  /** The rows a run of inserts adds to a table whose largest id so far is
      `last`: each value gets the next id. */
  function Numbered<T>(last: nat, values: seq<T>): (rows: seq<Row<T>>)
    ensures |rows| == |values|
  {
    if values == [] then [] else Numbered(last, values[..|values| - 1]) + [Row(last + |values|, values[|values| - 1])]
  }

  /** The `k`-th value inserted gets id `last + k + 1`. */
  lemma {:induction false} NumberedAt<T>(last: nat, values: seq<T>, k: nat)
    requires k < |values|
    ensures Numbered(last, values)[k] == Row(last + k + 1, values[k])
  {
    var n := |values| - 1;
    if k < n {
      NumberedAt(last, values[..n], k);
    }
  }

  /** Inserting one more value appends one row with the next id. */
  lemma NumberedAppend<T>(last: nat, values: seq<T>, v: T)
    ensures Numbered(last, values + [v]) == Numbered(last, values) + [Row(last + |values| + 1, v)]
  {
    assert (values + [v])[..|values|] == values;
  }

  /** A table that has received `values` after `prefix` and then one more
      insert holds the rows of `values + [v]` after `prefix`. */
  lemma NumberedExtend<T>(prefix: seq<Row<T>>, last: nat, values: seq<T>, v: T)
    ensures prefix + Numbered(last, values) + [Row(last + |values| + 1, v)] == prefix + Numbered(last, values + [v])
  {
    NumberedAppend(last, values, v);
  }

  /** Two runs of inserts, the second continuing from the ids the first used. */
  lemma NumberedConcat<T>(last: nat, a: seq<T>, b: seq<T>)
    ensures Numbered(last, a + b) == Numbered(last, a) + Numbered(last + |a|, b)
  {
    var l, r := Numbered(last, a + b), Numbered(last, a) + Numbered(last + |a|, b);
    assert |l| == |r|;
    forall k | 0 <= k < |l| ensures l[k] == r[k] {
      NumberedAt(last, a + b, k);
      if k < |a| {
        NumberedAt(last, a, k);
      } else {
        NumberedAt(last + |a|, b, k - |a|);
        assert r[k] == Numbered(last + |a|, b)[k - |a|];
      }
    }
  }

  /** A table filled by a run of inserts, starting from counter `last`, is
      well numbered, with the counter advanced by the number of rows. */
  lemma NumberedIsWellNumbered<T>(last: nat, values: seq<T>)
    ensures WellNumbered(Numbered(last, values), last + |values|)
  {
    var rows := Numbered(last, values);
    forall i, j | 0 <= i < j < |rows| ensures rows[i].id < rows[j].id {
      NumberedAt(last, values, i);
      NumberedAt(last, values, j);
    }
    forall i | 0 <= i < |rows| ensures rows[i].id <= last + |values| {
      NumberedAt(last, values, i);
    }
  }

  /** A prefix of a prefix is a prefix. */
  lemma TakeOfTake<T>(s: seq<T>, n: nat, i: nat)
    requires i <= n <= |s|
    ensures s[..n][..i] == s[..i]
  {
  }

  /** The prefix as long as the sequence is the sequence. */
  lemma TakeAll<T>(s: seq<T>)
    ensures s[..|s|] == s
  {
  }

  /** Rows numbered on from `last` all have ids above those of a table whose
      largest id so far is `last`. */
  lemma NumberedAbove<T>(rows: seq<Row<T>>, last: nat, values: seq<T>)
    requires WellNumbered(rows, last)
    ensures forall i, k :: 0 <= i < |rows| && 0 <= k < |values| ==> rows[i].id < Numbered(last, values)[k].id
  {
    forall i, k | 0 <= i < |rows| && 0 <= k < |values|
      ensures rows[i].id < Numbered(last, values)[k].id
    {
      NumberedAt(last, values, k);
    }
  }

  /** `str.strip()` applied to each string of a list. */
  function StripAll(xs: seq<string>): (r: seq<string>)
    ensures |r| == |xs|
  {
    if xs == [] then [] else StripAll(xs[..|xs| - 1]) + [Strip(xs[|xs| - 1])]
  }

  /** Entry `k` of the stripped list is entry `k` of the list, stripped. */
  lemma {:induction false} StripAllAt(xs: seq<string>, k: nat)
    requires k < |xs|
    ensures StripAll(xs)[k] == Strip(xs[k])
  {
    var n := |xs| - 1;
    if k < n {
      StripAllAt(xs[..n], k);
    }
  }

  /** The rows the inner loop of `save_settings` inserts for one keyword:
      one per city, in city order. */
  function CityRows<S>(keyword: S, cities: seq<S>, targetUrl: S): (r: seq<Tracked<S>>)
    ensures |r| == |cities|
  {
    if cities == [] then []
    else
      var n := |cities| - 1;
      CityRows(keyword, cities[..n], targetUrl) + [Tracked(keyword, cities[n], targetUrl)]
  }

  /** Row `j` of a keyword's rows pairs it with city `j`. */
  lemma {:induction false} CityRowsAt<S>(keyword: S, cities: seq<S>, targetUrl: S, j: nat)
    requires j < |cities|
    ensures CityRows(keyword, cities, targetUrl)[j] == Tracked(keyword, cities[j], targetUrl)
  {
    var n := |cities| - 1;
    if j < n {
      CityRowsAt(keyword, cities[..n], targetUrl, j);
    }
  }

  /** The rows the two nested loops of `save_settings` insert, in insertion
      order: for each keyword in turn, its `CityRows`. */
  function Grid<S>(keywords: seq<S>, cities: seq<S>, targetUrl: S): (rows: seq<Tracked<S>>)
  {
    if keywords == [] then []
    else
      var n := |keywords| - 1;
      Grid(keywords[..n], cities, targetUrl) + CityRows(keywords[n], cities, targetUrl)
  }

  /** What `save_settings` leaves in the table, without ids: the grid of the
      stripped keywords and cities, with the stripped target. */
  function SettingsFor(keywords: seq<string>, cities: seq<string>, targetUrl: string): (rows: seq<Tracked<string>>)
  {
    Grid(StripAll(keywords), StripAll(cities), Strip(targetUrl))
  }

  /** The grid has one row per keyword and city. */
  lemma {:induction false} GridLength<S>(keywords: seq<S>, cities: seq<S>, targetUrl: S)
    ensures |Grid(keywords, cities, targetUrl)| == |keywords| * |cities|
  {
    if keywords != [] {
      var n := |keywords| - 1;
      GridLength(keywords[..n], cities, targetUrl);
      MulSucc(n, |cities|);
    }
  }

  /** The keywords before keyword `i` account for `i * |cities|` rows. */
  lemma GridPrefixLength<S>(keywords: seq<S>, cities: seq<S>, targetUrl: S, i: nat)
    requires i <= |keywords|
    ensures |Grid(keywords[..i], cities, targetUrl)| == i * |cities|
  {
    GridLength(keywords[..i], cities, targetUrl);
  }

  /** One more row of `m`. */
  lemma MulSucc(n: nat, m: nat)
    ensures (n + 1) * m == n * m + m
  {
  }

  /** The rows of all keywords but the last come first in the grid. */
  lemma GridFront<S>(keywords: seq<S>, cities: seq<S>, targetUrl: S, k: nat)
    requires |keywords| > 0 && k < |Grid(keywords[..|keywords| - 1], cities, targetUrl)|
    ensures k < |Grid(keywords, cities, targetUrl)|
    ensures Grid(keywords, cities, targetUrl)[k] == Grid(keywords[..|keywords| - 1], cities, targetUrl)[k]
  {
  }

  /** The rows of the last keyword come after those of all the others. */
  lemma GridLast<S>(keywords: seq<S>, cities: seq<S>, targetUrl: S, j: nat)
    requires |keywords| > 0 && j < |cities|
    ensures |Grid(keywords[..|keywords| - 1], cities, targetUrl)| + j < |Grid(keywords, cities, targetUrl)|
    ensures Grid(keywords, cities, targetUrl)[|Grid(keywords[..|keywords| - 1], cities, targetUrl)| + j]
         == Tracked(keywords[|keywords| - 1], cities[j], targetUrl)
  {
    CityRowsAt(keywords[|keywords| - 1], cities, targetUrl, j);
  }

  /** The rows of the first `m` keywords are the first rows of the grid. */
  lemma {:induction false} GridPrefix<S>(keywords: seq<S>, cities: seq<S>, targetUrl: S, m: nat)
    requires m <= |keywords|
    ensures Grid(keywords[..m], cities, targetUrl) <= Grid(keywords, cities, targetUrl)
  {
    if m < |keywords| {
      var n := |keywords| - 1;
      TakeOfTake(keywords, n, m);
      GridPrefix(keywords[..n], cities, targetUrl, m);
      var front := Grid(keywords[..n], cities, targetUrl);
      assert Grid(keywords, cities, targetUrl) == front + CityRows(keywords[n], cities, targetUrl);
    } else {
      TakeAll(keywords);
    }
  }

  /** Keyword `i` adds its rows, one per city in city order, right after
      those of the keywords before it. */
  lemma GridNextKeyword<S>(keywords: seq<S>, cities: seq<S>, targetUrl: S, i: nat, j: nat)
    requires i < |keywords| && j < |cities|
    ensures |Grid(keywords[..i], cities, targetUrl)| + j < |Grid(keywords[..i + 1], cities, targetUrl)|
    ensures Grid(keywords[..i + 1], cities, targetUrl)[|Grid(keywords[..i], cities, targetUrl)| + j]
         == Tracked(keywords[i], cities[j], targetUrl)
  {
    var pre := keywords[..i + 1];
    assert pre[..|pre| - 1] == keywords[..i] && pre[|pre| - 1] == keywords[i];
    var before, own := Grid(keywords[..i], cities, targetUrl), CityRows(keywords[i], cities, targetUrl);
    assert Grid(pre, cities, targetUrl) == before + own;
    CityRowsAt(keywords[i], cities, targetUrl, j);
  }

  /** The rows for keyword `i` come right after those of the keywords before
      it, one per city in city order. */
  lemma GridRowsOf<S>(keywords: seq<S>, cities: seq<S>, targetUrl: S, i: nat, j: nat)
    requires i < |keywords| && j < |cities|
    ensures |Grid(keywords[..i], cities, targetUrl)| + j < |Grid(keywords, cities, targetUrl)|
    ensures Grid(keywords, cities, targetUrl)[|Grid(keywords[..i], cities, targetUrl)| + j]
         == Tracked(keywords[i], cities[j], targetUrl)
  {
    GridNextKeyword(keywords, cities, targetUrl, i, j);
    GridPrefix(keywords, cities, targetUrl, i + 1);
  }

  /** Row `i * |cities| + j` of the grid pairs keyword `i` with city `j`:
      keyword-major, city-minor order. */
  lemma GridAt<S>(keywords: seq<S>, cities: seq<S>, targetUrl: S, i: nat, j: nat)
    requires i < |keywords| && j < |cities|
    ensures i * |cities| + j < |Grid(keywords, cities, targetUrl)|
    ensures Grid(keywords, cities, targetUrl)[i * |cities| + j] == Tracked(keywords[i], cities[j], targetUrl)
  {
    GridPrefixLength(keywords, cities, targetUrl, i);
    GridRowsOf(keywords, cities, targetUrl, i, j);
  }

  /** Every row of the grid takes its keyword from `keywords`, its city from
      `cities` and the target unchanged. */
  lemma {:induction false} GridFieldsFrom<S>(keywords: seq<S>, cities: seq<S>, targetUrl: S, k: nat)
    requires k < |Grid(keywords, cities, targetUrl)|
    ensures Grid(keywords, cities, targetUrl)[k].keyword in keywords
    ensures Grid(keywords, cities, targetUrl)[k].city in cities
    ensures Grid(keywords, cities, targetUrl)[k].targetUrl == targetUrl
  {
    var n := |keywords| - 1;
    var front := Grid(keywords[..n], cities, targetUrl);
    if k < |front| {
      GridFront(keywords, cities, targetUrl, k);
      GridFieldsFrom(keywords[..n], cities, targetUrl, k);
      assert front[k].keyword in keywords[..n];
    } else {
      GridLast(keywords, cities, targetUrl, k - |front|);
    }
  }

  /** After `save_settings(keywords, cities, targetUrl)` there are
      `|keywords| * |cities|` rows, and row `i * |cities| + j` holds keyword
      `i`, city `j` and the target, each stripped. */
  lemma SettingsForAt(keywords: seq<string>, cities: seq<string>, targetUrl: string, i: nat, j: nat)
    requires i < |keywords| && j < |cities|
    ensures |SettingsFor(keywords, cities, targetUrl)| == |keywords| * |cities|
    ensures i * |cities| + j < |keywords| * |cities|
    ensures SettingsFor(keywords, cities, targetUrl)[i * |cities| + j]
         == Tracked(Strip(keywords[i]), Strip(cities[j]), Strip(targetUrl))
  {
    GridLength(StripAll(keywords), StripAll(cities), Strip(targetUrl));
    GridAt(StripAll(keywords), StripAll(cities), Strip(targetUrl), i, j);
    StripAllAt(keywords, i);
    StripAllAt(cities, j);
  }

  /** Every stored settings field is already stripped. */
  lemma SettingsForStripped(keywords: seq<string>, cities: seq<string>, targetUrl: string, k: nat)
    requires k < |SettingsFor(keywords, cities, targetUrl)|
    ensures IsStripped(SettingsFor(keywords, cities, targetUrl)[k].keyword)
    ensures IsStripped(SettingsFor(keywords, cities, targetUrl)[k].city)
    ensures IsStripped(SettingsFor(keywords, cities, targetUrl)[k].targetUrl)
  {
    var ks, cs := StripAll(keywords), StripAll(cities);
    var row := Grid(ks, cs, Strip(targetUrl))[k];
    GridFieldsFrom(ks, cs, Strip(targetUrl), k);
    var i :| 0 <= i < |ks| && ks[i] == row.keyword;
    var j :| 0 <= j < |cs| && cs[j] == row.city;
    StripAllAt(keywords, i);
    StripAllAt(cities, j);
    StripIsStripped(keywords[i]);
    StripIsStripped(cities[j]);
    StripIsStripped(targetUrl);
  }

  /** One pass of the inner loop of `save_settings`: the row for city `j`,
      stripped and numbered on from the rows before it, extends them. */
  lemma InsertCityStep(prefix: seq<Row<Tracked<string>>>, first: nat, keyword: string, cities: seq<string>, targetUrl: string, j: nat)
    requires j < |cities|
    ensures prefix + Numbered(first, CityRows(Strip(keyword), StripAll(cities)[..j], Strip(targetUrl)))
              + [Row(first + j + 1, Tracked(Strip(keyword), Strip(cities[j]), Strip(targetUrl)))]
         == prefix + Numbered(first, CityRows(Strip(keyword), StripAll(cities)[..j + 1], Strip(targetUrl)))
  {
    var cs := StripAll(cities);
    TakeOfTake(cs, j + 1, j);
    StripAllAt(cities, j);
    var rows := CityRows(Strip(keyword), cs[..j], Strip(targetUrl));
    NumberedExtend(prefix, first, rows, Tracked(Strip(keyword), Strip(cities[j]), Strip(targetUrl)));
  }

  /** One pass of the outer loop of `save_settings`, in the generic form for
      any field type: the rows for keyword `i`, numbered on from those of the
      keywords before it, extend them. `SaveSettingsStep` applies it to the
      stripped strings. */
  lemma InsertKeywordStep<S>(first: nat, keywords: seq<S>, cities: seq<S>, targetUrl: S, i: nat)
    requires i < |keywords|
    ensures Numbered(first, Grid(keywords[..i], cities, targetUrl))
              + Numbered(first + |Grid(keywords[..i], cities, targetUrl)|, CityRows(keywords[i], cities, targetUrl))
         == Numbered(first, Grid(keywords[..i + 1], cities, targetUrl))
  {
    TakeOfTake(keywords, i + 1, i);
    NumberedConcat(first, Grid(keywords[..i], cities, targetUrl), CityRows(keywords[i], cities, targetUrl));
  }

  /** One pass of the outer loop of `save_settings` on the stripped inputs:
      the rows for keyword `i`, numbered on from those of the keywords before
      it, extend them. The cities appear as `StripAll(cities)[..|cities|]`,
      the form in which `InsertCityRows` states its rows. */
  lemma SaveSettingsStep(first: nat, last: nat, keywords: seq<string>, cities: seq<string>, targetUrl: string, i: nat)
    requires i < |keywords|
    requires last == first + |Numbered(first, Grid(StripAll(keywords)[..i], StripAll(cities), Strip(targetUrl)))|
    ensures Numbered(first, Grid(StripAll(keywords)[..i], StripAll(cities), Strip(targetUrl)))
              + Numbered(last,
                         CityRows(Strip(keywords[i]), StripAll(cities)[..|cities|], Strip(targetUrl)))
         == Numbered(first, Grid(StripAll(keywords)[..i + 1], StripAll(cities), Strip(targetUrl)))
  {
    var ks, cs, target := StripAll(keywords), StripAll(cities), Strip(targetUrl);
    var before := Grid(ks[..i], cs, target);
    assert last == first + |before|;
    assert cs[..|cities|] == cs by { TakeAll(cs); }
    StripAllAt(keywords, i);
    InsertKeywordStep(first, ks, cs, target, i);
  }

  /** Once the outer loop of `save_settings` has seen every keyword, it has
      inserted the whole grid. */
  lemma SettingsForComplete(keywords: seq<string>, cities: seq<string>, targetUrl: string)
    ensures Grid(StripAll(keywords)[..|keywords|], StripAll(cities), Strip(targetUrl)) == SettingsFor(keywords, cities, targetUrl)
  {
    TakeAll(StripAll(keywords));
  }

  class Database {
    var rankings: seq<Row<Observation>>
    var settings: seq<Row<Tracked<string>>>
    var scheduleConfig: seq<Row<Trigger>>
    /** The largest id each table has handed out (sqlite's `sqlite_sequence`). */
    var lastRankingId: nat
    var lastSettingId: nat
    var lastScheduleId: nat

    ghost predicate Valid()
      reads this
    {
      WellNumbered(rankings, lastRankingId)
      && WellNumbered(settings, lastSettingId)
      && WellNumbered(scheduleConfig, lastScheduleId)
    }

    /** `init_db` on a fresh database file: three empty tables. */
    constructor ()
      ensures Valid()
      ensures rankings == [] && settings == [] && scheduleConfig == []
      ensures lastRankingId == 0 && lastSettingId == 0 && lastScheduleId == 0
    {
      rankings, settings, scheduleConfig := [], [], [];
      lastRankingId, lastSettingId, lastScheduleId := 0, 0, 0;
    }

    /** `save_rank`: insert one observation, stamped with `date`. */
    method SaveRank(keyword: string, city: string, targetUrl: string, rank: Option<nat>, date: string)
      requires Valid()
      modifies this
      ensures Valid()
      ensures rankings == old(rankings) + [Row(old(lastRankingId) + 1, Observation(keyword, city, targetUrl, rank, date))]
      ensures forall k :: 0 <= k < |old(rankings)| ==> old(rankings)[k].id < rankings[|rankings| - 1].id
      ensures lastRankingId == old(lastRankingId) + 1
      ensures settings == old(settings) && lastSettingId == old(lastSettingId)
      ensures scheduleConfig == old(scheduleConfig) && lastScheduleId == old(lastScheduleId)
    {
      lastRankingId := lastRankingId + 1;
      rankings := rankings + [Row(lastRankingId, Observation(keyword, city, targetUrl, rank, date))];
    }

    /** `save_settings`: delete every settings row, then insert one row per
        keyword and city, keyword-major, with all three fields stripped. The
        ids continue from the largest one the table ever handed out. */
    method SaveSettings(keywords: seq<string>, cities: seq<string>, targetUrl: string)
      requires Valid()
      modifies this`settings, this`lastSettingId
      ensures Valid()
      ensures settings == Numbered(old(lastSettingId), SettingsFor(keywords, cities, targetUrl))
      ensures |settings| == |keywords| * |cities|
      ensures lastSettingId == old(lastSettingId) + |settings|
    {
      settings := [];
      InsertKeywordRows(keywords, cities, targetUrl);
      GridLength(StripAll(keywords), StripAll(cities), Strip(targetUrl));
      NumberedIsWellNumbered(old(lastSettingId), SettingsFor(keywords, cities, targetUrl));
    }

    /** The outer `for kw in keywords` loop of `save_settings`, run on the
        emptied table. */
    method InsertKeywordRows(keywords: seq<string>, cities: seq<string>, targetUrl: string)
      requires settings == []
      modifies this`settings, this`lastSettingId
      ensures settings == Numbered(old(lastSettingId), SettingsFor(keywords, cities, targetUrl))
      ensures lastSettingId == old(lastSettingId) + |settings|
    {
      ghost var first := lastSettingId;
      for i := 0 to |keywords|
        invariant settings == Numbered(first, Grid(StripAll(keywords)[..i], StripAll(cities), Strip(targetUrl)))
        invariant lastSettingId == first + |settings|
      {
        SaveSettingsStep(first, lastSettingId, keywords, cities, targetUrl, i);
        InsertCityRows(keywords[i], cities, targetUrl);
      }
      SettingsForComplete(keywords, cities, targetUrl);
    }

    /** The inner `for city in cities` loop of `save_settings`: insert one
        row for `keyword` and each city, in order, all stripped. */
    method InsertCityRows(keyword: string, cities: seq<string>, targetUrl: string)
      modifies this`settings, this`lastSettingId
      // `StripAll(cities)[..|cities|]` is all of `StripAll(cities)`, written as
      // the loop invariant's slice at `j == |cities|` so that callers meet
      // the same term.
      ensures settings == old(settings) + Numbered(old(lastSettingId), CityRows(Strip(keyword), StripAll(cities)[..|cities|], Strip(targetUrl)))
      ensures lastSettingId == old(lastSettingId) + |cities|
    {
      for j := 0 to |cities|
        invariant settings == old(settings) + Numbered(old(lastSettingId), CityRows(Strip(keyword), StripAll(cities)[..j], Strip(targetUrl)))
        invariant lastSettingId == old(lastSettingId) + j
      {
        InsertCityStep(old(settings), old(lastSettingId), keyword, cities, targetUrl, j);
        lastSettingId := lastSettingId + 1;
        settings := settings + [Row(lastSettingId, Tracked(Strip(keyword), Strip(cities[j]), Strip(targetUrl)))];
      }
    }

    /** `load_settings`: every settings row, in id order. */
    function LoadSettings(): (rows: seq<Row<Tracked<string>>>)
      requires Valid()
      reads this
      ensures forall i, j :: 0 <= i < j < |rows| ==> rows[i].id < rows[j].id
    {
      settings
    }

    /** `save_schedule`: delete the schedule row(s), then insert this one. */
    method SaveSchedule(day: string, time: string)
      requires Valid()
      modifies this
      ensures Valid()
      ensures scheduleConfig == [Row(old(lastScheduleId) + 1, Trigger(day, time))]
      ensures lastScheduleId == old(lastScheduleId) + 1
      ensures LoadSchedule() == (Some(day), Some(time))
      ensures rankings == old(rankings) && lastRankingId == old(lastRankingId)
      ensures settings == old(settings) && lastSettingId == old(lastSettingId)
    {
      scheduleConfig := [];
      lastScheduleId := lastScheduleId + 1;
      scheduleConfig := scheduleConfig + [Row(lastScheduleId, Trigger(day, time))];
      assert scheduleConfig[0] == Row(lastScheduleId, Trigger(day, time));
    }

    /** `load_schedule`: the day and time of the first schedule row, or
        `(None, None)` when the table is empty. */
    function LoadSchedule(): (r: (Option<string>, Option<string>))
      reads this
      ensures r.0.None? <==> scheduleConfig == []
      ensures r.1.None? <==> scheduleConfig == []
      ensures scheduleConfig != [] ==> r == (Some(scheduleConfig[0].fields.day), Some(scheduleConfig[0].fields.time))
    {
      if scheduleConfig != [] then
        var row := scheduleConfig[0];
        (Some(row.fields.day), Some(row.fields.time))
      else (None, None)
    }
  }
}
