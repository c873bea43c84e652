/**
 * The weekly job: for every stored keyword/city pair, resolve the rank of
 * the target page and record it. The search-engine request is replaced by
 * `fetch`, which gives the result entries a search for a keyword in a city
 * returns, and the wall clock by `clock`, which gives the date stamped on
 * the `k`-th record of the run.
 */
module Job {
  import opened Wrappers
  import opened Ranking
  import opened Store
  import opened Text

  /** The ranking record the job writes for one settings row. */
  function Observe(setting: Tracked<string>, fetch: (string, string) -> seq<Entry>, date: string): (record: Observation)
  {
    Observation(setting.keyword, setting.city, setting.targetUrl,
                Rank(fetch(setting.keyword, setting.city), setting.targetUrl), date)
  }

  /** The records a run over `rows` writes, in row order; the `k`-th is
      stamped `clock(k)`. */
  function JobRows(rows: seq<Row<Tracked<string>>>, fetch: (string, string) -> seq<Entry>, clock: nat -> string): (r: seq<Observation>)
    ensures |r| == |rows|
  {
    if rows == [] then []
    else
      var n := |rows| - 1;
      JobRows(rows[..n], fetch, clock) + [Observe(rows[n].fields, fetch, clock(n))]
  }

  /** Record `k` copies the keyword, city and target of settings row `k`,
      and its rank is the rank of the target among that search's results. */
  lemma {:induction false} JobRowsAt(rows: seq<Row<Tracked<string>>>, fetch: (string, string) -> seq<Entry>, clock: nat -> string, k: nat)
    requires k < |rows|
    ensures JobRows(rows, fetch, clock)[k]
         == Observation(rows[k].fields.keyword, rows[k].fields.city, rows[k].fields.targetUrl,
                        Rank(fetch(rows[k].fields.keyword, rows[k].fields.city), rows[k].fields.targetUrl), clock(k))
  {
    var n := |rows| - 1;
    if k < n {
      var pre := rows[..n];
      assert pre[k] == rows[k];
      JobRowsAt(pre, fetch, clock, k);
    }
  }

  /** One pass of the job's loop: the records already saved, `done`, plus
      the record for row `k` with the next id and the rank found for it, are
      the records of the rows up to and including `k`. The id and the rank
      are parameters, fixed by the requires, so that the record is stated in
      exactly the terms `SaveRank` uses for the row it appends. */
  lemma JobStep(prefix: seq<Row<Observation>>, last: nat, rows: seq<Row<Tracked<string>>>,
                fetch: (string, string) -> seq<Entry>, clock: nat -> string, k: nat, id: nat,
                done: seq<Row<Observation>>, rank: Option<nat>)
    requires k < |rows| && id == last + k + 1
    requires done == prefix + Numbered(last, JobRows(rows[..k], fetch, clock))
    requires rank == Rank(fetch(rows[k].fields.keyword, rows[k].fields.city), rows[k].fields.targetUrl)
    ensures done + [Row(id, Observation(rows[k].fields.keyword, rows[k].fields.city, rows[k].fields.targetUrl, rank, clock(k)))]
         == prefix + Numbered(last, JobRows(rows[..k + 1], fetch, clock))
  {
    var pre := rows[..k + 1];
    assert pre[..|pre| - 1] == rows[..k] && pre[|pre| - 1] == rows[k];
    var before := JobRows(rows[..k], fetch, clock);
    assert id == last + |before| + 1;
    var record := Observe(rows[k].fields, fetch, clock(k));
    assert record == Observation(rows[k].fields.keyword, rows[k].fields.city, rows[k].fields.targetUrl, rank, clock(k));
    NumberedExtend(prefix, last, before, record);
  }

  /** After `save_settings(keywords, cities, targetUrl)`, the job's record
      for keyword `i` and city `j` is record `i * |cities| + j` of the run;
      it carries the stripped keyword, city and target, and the rank of the
      stripped target among the results for that keyword in that city. */
  lemma JobAfterSettings(last: nat, keywords: seq<string>, cities: seq<string>, targetUrl: string,
                         fetch: (string, string) -> seq<Entry>, clock: nat -> string, i: nat, j: nat)
    requires i < |keywords| && j < |cities|
    ensures i * |cities| + j < |JobRows(Numbered(last, SettingsFor(keywords, cities, targetUrl)), fetch, clock)|
    ensures JobRows(Numbered(last, SettingsFor(keywords, cities, targetUrl)), fetch, clock)[i * |cities| + j]
         == Observation(Strip(keywords[i]), Strip(cities[j]), Strip(targetUrl),
                        Rank(fetch(Strip(keywords[i]), Strip(cities[j])), Strip(targetUrl)), clock(i * |cities| + j))
  {
    var rows := Numbered(last, SettingsFor(keywords, cities, targetUrl));
    var k := i * |cities| + j;
    SettingsForAt(keywords, cities, targetUrl, i, j);
    NumberedAt(last, SettingsFor(keywords, cities, targetUrl), k);
    JobRowsAt(rows, fetch, clock, k);
  }

  /** `run_weekly_job`: snapshot the settings, then for each row in order
      resolve the rank and save it. Each saved record gets the next ranking
      id; the settings and the schedule are untouched. */
  method RunWeeklyJob(db: Database, fetch: (string, string) -> seq<Entry>, clock: nat -> string)
    requires db.Valid()
    modifies db
    ensures db.Valid()
    ensures db.rankings == old(db.rankings) + Numbered(old(db.lastRankingId), JobRows(old(db.settings), fetch, clock))
    ensures db.lastRankingId == old(db.lastRankingId) + |old(db.settings)|
    ensures db.settings == old(db.settings) && db.lastSettingId == old(db.lastSettingId)
    ensures db.scheduleConfig == old(db.scheduleConfig) && db.lastScheduleId == old(db.lastScheduleId)
  {
    var rows := db.LoadSettings();
    for k := 0 to |rows|
      invariant db.Valid()
      invariant db.rankings == old(db.rankings) + Numbered(old(db.lastRankingId), JobRows(rows[..k], fetch, clock))
      invariant db.lastRankingId == old(db.lastRankingId) + k
      invariant db.settings == old(db.settings) && db.lastSettingId == old(db.lastSettingId)
      invariant db.scheduleConfig == old(db.scheduleConfig) && db.lastScheduleId == old(db.lastScheduleId)
    {
      var setting := rows[k].fields;
      var rank := GetRank(fetch(setting.keyword, setting.city), setting.targetUrl);
      label Save:
      db.SaveRank(setting.keyword, setting.city, setting.targetUrl, rank, clock(k));
      JobStep(old(db.rankings), old(db.lastRankingId), rows, fetch, clock, k,
              old@Save(db.lastRankingId) + 1, old@Save(db.rankings), rank);
    }
    TakeAll(rows);
  }
}
