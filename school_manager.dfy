/** src/managers/school_manager.py: which school codes are new, and the scrape, parse and
    save of a list of codes, one school at a time. */
module SchoolManager {
  import opened Wrappers
  import opened Records
  import opened Models
  import opened Operations
  import opened Html
  import opened DetailsParser
  import opened BaseScraper
  import opened DetailsScraper
  import opened Seqs

  // ------------------------------------------------------------- new codes

  /** `[id for id in school_ids if id not in existing_ids]` */
  function NewIds(ids: seq<string>, existing: set<string>): seq<string>
    decreases |ids|
  {
    if ids == [] then []
    else (if ids[0] in existing then [] else [ids[0]]) + NewIds(ids[1..], existing)
  }

  /** A code is kept exactly when it was asked for and is not stored yet. */
  lemma {:induction false} NewIdsMembers(ids: seq<string>, existing: set<string>, x: string)
    ensures x in NewIds(ids, existing) <==> x in ids && x !in existing
    decreases |ids|
  {
    if ids != [] {
      NewIdsMembers(ids[1..], existing, x);
      assert ids == [ids[0]] + ids[1..];
    }
  }

  /** The filter works piece by piece, so the codes kept stay in their order. */
  lemma {:induction false} NewIdsAppend(a: seq<string>, b: seq<string>, existing: set<string>)
    ensures NewIds(a + b, existing) == NewIds(a, existing) + NewIds(b, existing)
    decreases |a|
  {
    if a == [] {
      assert a + b == b;
    } else {
      assert (a + b)[1..] == a[1..] + b;
      NewIdsAppend(a[1..], b, existing);
    }
  }

  /** A new code is kept as often as it is listed: repeats are not removed; a stored
      code is never kept. */
  lemma {:induction false} NewIdsCounts(ids: seq<string>, existing: set<string>, x: string)
    ensures x !in existing ==> multiset(NewIds(ids, existing))[x] == multiset(ids)[x]
    ensures x in existing ==> multiset(NewIds(ids, existing))[x] == 0
    decreases |ids|
  {
    if ids != [] {
      NewIdsCounts(ids[1..], existing, x);
      assert ids == [ids[0]] + ids[1..];
    }
  }

  /** Filtering twice keeps what filtering once keeps. */
  lemma {:induction false} NewIdsIdempotent(ids: seq<string>, existing: set<string>)
    ensures NewIds(NewIds(ids, existing), existing) == NewIds(ids, existing)
    decreases |ids|
  {
    if ids != [] {
      NewIdsIdempotent(ids[1..], existing);
      var head := if ids[0] in existing then [] else [ids[0]];
      NewIdsAppend(head, NewIds(ids[1..], existing), existing);
      if ids[0] !in existing {
        assert [ids[0]][1..] == [];
      }
    }
  }

  // ------------------------------------------------------------- calling `run`

  /** A value at the call site: a list of codes, or an integer such as a batch size. */
  datatype Arg = CodeList(ids: seq<string>) | Int(n: int)

  datatype CallError = TypeError

  /** How Python binds the arguments of a call to `DetailsScraper.run(self, school_ids=None)`:
      the value bound to `school_ids`, or TypeError for a second positional argument, a
      keyword that names no parameter, or a parameter given twice. */
  function BindRun(positional: seq<Arg>, keywords: map<string, Arg>): Result<Option<Arg>, CallError> {
    if |positional| > 1 then Failure(TypeError)
    else if exists k :: k in keywords && k != "school_ids" then Failure(TypeError)
    else if |positional| == 1 && "school_ids" in keywords then Failure(TypeError)
    else if |positional| == 1 then Success(Some(positional[0]))
    else if "school_ids" in keywords then Success(Some(keywords["school_ids"]))
    else Success(None)
  }

  /** The call `self.scraper.run(school_ids, batch_size=batch_size)` cannot bind: `run` has
      no `batch_size` parameter, so it raises TypeError whatever the codes and the size. */
  lemma BatchSizeRejected(ids: seq<string>, batchSize: int)
    ensures BindRun([CodeList(ids)], map["batch_size" := Int(batchSize)]) == Failure(TypeError)
  {
    var keywords := map["batch_size" := Int(batchSize)];
    assert "batch_size" in keywords && "batch_size" != "school_ids";
  }

  /** The call without the keyword binds the codes to `school_ids`. */
  lemma CodesAloneBind(ids: seq<string>)
    ensures BindRun([CodeList(ids)], map[]) == Success(Some(CodeList(ids)))
  {
  }

  /** `scrape_and_parse` as written: its first statement raises TypeError, so no request
      is sent and nothing is saved, for every list of codes and every batch size. */
  method ScrapeAndParseAsWritten(ids: seq<string>, batchSize: int) returns (r: Result<(), CallError>)
    ensures r == Failure(TypeError)
  {
    BatchSizeRejected(ids, batchSize);
    r := match BindRun([CodeList(ids)], map["batch_size" := Int(batchSize)])
      case Failure(e) => Failure(e)
      case Success(_) => Success(());
  }

  // ------------------------------------------------------------- saving one school after another

  /** What a run of `db.save_school(school_data)` calls without a session leaves: the
      committed store, the session events in order, and the results. */
  datatype Batch = Batch(committed: Store, journal: seq<TxEvent>, results: seq<Result<Saved, DbError>>)

  /** The body of `save_school` run on a store: its outcome. */
  type Upserter = (Store, SchoolData, string) -> Outcome

  /** The upsert of `save_school` in a session of its own: what its queries see and what
      it starts from are both the committed store. */
  const OwnSession: Upserter := (committed: Store, record: SchoolData, now: string) => Upsert(committed, committed, record, now)

  /** How the session of one `save_school` ends: a successful upsert that can be flushed
      is committed; otherwise the session rolls back and the committed store is as before. */
  function Settle(committed: Store, o: Outcome): (r: Batch)
    ensures |r.results| == 1
    ensures r.results[0].Failure? ==> r.committed == committed
    ensures r.results[0].Success? ==> r.committed == o.state && Flushable(r.committed) && r.results[0] == o.result
  {
    if o.result.Success? && Flushable(o.state) then Batch(o.state, [TxEvent.Commit, TxEvent.Close], [o.result])
    else if o.result.Success? then Batch(committed, [TxEvent.Commit, TxEvent.Rollback, TxEvent.Close], [Failure(FlushFailed)])
    else Batch(committed, [TxEvent.Rollback, TxEvent.Close], [o.result])
  }

  /** Two runs one after the other. */
  function Then(a: Batch, b: Batch): Batch {
    Batch(b.committed, a.journal + b.journal, a.results + b.results)
  }

  lemma ThenAssociative(x: Batch, y: Batch, z: Batch)
    ensures Then(Then(x, y), z) == Then(x, Then(y, z))
  {
    Associate(x.journal, y.journal, z.journal);
    Associate(x.results, y.results, z.results);
  }

  /** The `for` loop of `scrape_and_parse`: each record saved with its own timestamp, in
      order, each from the store the previous one left. */
  function SaveAll(upsert: Upserter, committed: Store, saves: seq<(SchoolData, string)>): (r: Batch)
    ensures |r.results| == |saves|
    decreases |saves|
  {
    if saves == [] then Batch(committed, [], [])
    else
      var first := SaveAll(upsert, committed, saves[..|saves| - 1]);
      var (record, now) := saves[|saves| - 1];
      Then(first, Settle(first.committed, upsert(first.committed, record, now)))
  }

  /** Saving two runs of records is saving the first, then the second from where it left. */
  lemma {:induction false} SaveAllAppend(upsert: Upserter, committed: Store, a: seq<(SchoolData, string)>, b: seq<(SchoolData, string)>)
    ensures SaveAll(upsert, committed, a + b)
      == Then(SaveAll(upsert, committed, a), SaveAll(upsert, SaveAll(upsert, committed, a).committed, b))
    decreases |b|
  {
    if b == [] {
      assert a + b == a;
    } else {
      var b' := b[..|b| - 1];
      var last := b[|b| - 1];
      assert (a + b)[..|a + b| - 1] == a + b';
      assert (a + b)[|a + b| - 1] == last;
      SaveAllAppend(upsert, committed, a, b');
      var first := SaveAll(upsert, committed, a);
      var middle := SaveAll(upsert, first.committed, b');
      var step := Settle(middle.committed, upsert(middle.committed, last.0, last.1));
      assert SaveAll(upsert, committed, a + b) == Then(Then(first, middle), step);
      assert SaveAll(upsert, first.committed, b) == Then(middle, step);
      ThenAssociative(first, middle, step);
    }
  }

  lemma SaveAllSingle(upsert: Upserter, committed: Store, x: (SchoolData, string))
    ensures SaveAll(upsert, committed, [x]) == Settle(committed, upsert(committed, x.0, x.1))
  {
    assert [x][..0] == [];
  }

  /** A school whose save fails does not stop or change the others: the committed store
      at the end is the one reached without that school, and the schools after it get
      the results they get without it. */
  lemma FailedSaveSkipped(upsert: Upserter, committed: Store, a: seq<(SchoolData, string)>, x: (SchoolData, string), b: seq<(SchoolData, string)>)
    requires
      var before := SaveAll(upsert, committed, a).committed;
      Settle(before, upsert(before, x.0, x.1)).results[0].Failure?
    ensures SaveAll(upsert, committed, a + [x] + b).committed == SaveAll(upsert, committed, a + b).committed
    ensures
      var before := SaveAll(upsert, committed, a).committed;
      && SaveAll(upsert, committed, a + [x] + b).results
         == SaveAll(upsert, committed, a).results + Settle(before, upsert(before, x.0, x.1)).results
            + SaveAll(upsert, before, b).results
      && SaveAll(upsert, committed, a + b).results
         == SaveAll(upsert, committed, a).results + SaveAll(upsert, before, b).results
  {
    var ra := SaveAll(upsert, committed, a);
    SaveAllAppend(upsert, committed, a, [x]);
    SaveAllSingle(upsert, ra.committed, x);
    SaveAllAppend(upsert, committed, a + [x], b);
    SaveAllAppend(upsert, committed, a, b);
  }

  /** Committed content the database accepts stays so through any run of saves. */
  lemma {:induction false} SaveAllFlushable(upsert: Upserter, committed: Store, saves: seq<(SchoolData, string)>)
    requires Flushable(committed)
    ensures Flushable(SaveAll(upsert, committed, saves).committed)
    decreases |saves|
  {
    if saves != [] {
      SaveAllFlushable(upsert, committed, saves[..|saves| - 1]);
    }
  }

  /** The record of a page without a school code, passed on like any other, is refused
      when its session commits (its primary key is NULL): the committed store is as
      before and the handler absorbs the error. */
  lemma SentinelRefused(committed: Store, now: string)
    ensures Settle(committed, OwnSession(committed, Sentinel, now))
      == Batch(committed, [TxEvent.Commit, TxEvent.Rollback, TxEvent.Close], [Failure(FlushFailed)])
  {
    SentinelStaged(committed, now);
  }

  /** Staged, the record adds an object without a key, and links no study. */
  lemma SentinelStaged(committed: Store, now: string)
    ensures Upsert(committed, committed, Sentinel, now)
      == Outcome(committed.(conflicts := committed.conflicts + 1), Success(Saved(Null, [])))
  {
    var fields := Sentinel - {StudiesKey};
    SentinelFields();
    var pending := committed.(conflicts := committed.conflicts + 1);
    SentinelPlaced(committed, now);
    assert LinkStudies(committed.studies, pending, None, {}, [], now) == (pending, []);
  }

  lemma SentinelFields()
    ensures PopStudies(Sentinel) == (Studies([]), Sentinel - {StudiesKey})
    ensures (Sentinel - {StudiesKey}).Keys == {"id", "name", "services"}
    ensures (Sentinel - {StudiesKey})["id"] == Null
  {
  }

  lemma SentinelPlaced(committed: Store, now: string)
    ensures PlaceSchool(committed, committed, Null, Sentinel - {StudiesKey}, now)
      == Success((committed.(conflicts := committed.conflicts + 1), None))
  {
    SentinelFields();
    SentinelKeysAttributes();
    NullIdPlaced(committed, committed, Sentinel - {StudiesKey}, now);
  }

  /** A school with a NULL id is added as an object the flush cannot key. */
  lemma NullIdPlaced(base: Store, work: Store, fields: SchoolData, now: string)
    requires fields.Keys <= Attributes
    ensures PlaceSchool(base, work, Null, fields, now) == Success((work.(conflicts := work.conflicts + 1), None))
  {
    NullIdNew(base, work, fields, now);
    NullIdAdded(work, NewSchool(fields, now).value);
  }

  lemma NullIdAdded(work: Store, s: School)
    ensures AddSchool(work, Null, s) == (work.(conflicts := work.conflicts + 1), None)
  {
  }

  lemma NullIdNew(base: Store, work: Store, fields: SchoolData, now: string)
    requires fields.Keys <= Attributes
    ensures NewSchool(fields, now).Success?
    ensures PlaceSchool(base, work, Null, fields, now) == Success(AddSchool(work, Null, NewSchool(fields, now).value))
  {
  }

  lemma SentinelKeysAttributes()
    ensures {"id", "name", "services"} <= Attributes
  {
    assert "name" in DataColumns;
  }

  /** `parser = DetailsParser(html_content); school_data = parser.parse_all()` */
  function Parse(render: string -> Document): string -> SchoolData {
    (page: string) => ParseAll(render(page))
  }

  /** The records built from the fetched pages, in the dict's order, each with the
      timestamp its save takes. */
  function Saves(order: seq<string>, entries: map<string, string>, parse: string -> SchoolData, clock: nat -> string): (r: seq<(SchoolData, string)>)
    requires forall k :: k in order ==> k in entries
    ensures |r| == |order|
    ensures forall i :: 0 <= i < |order| ==> r[i] == (parse(entries[order[i]]), clock(i))
    decreases |order|
  {
    if order == [] then []
    else
      var n := |order| - 1;
      Saves(order[..n], entries, parse, clock) + [(parse(entries[order[n]]), clock(n))]
  }

  /** The pages fetched for `ids`, and the saves made of them. */
  function PagesFor(net: Network, config: ScrapingConfig, ids: seq<string>): Pages {
    Successes(ids, Outcomes(net, config, ids))
  }

  function SavesFor(net: Network, config: ScrapingConfig, ids: seq<string>, render: string -> Document, clock: nat -> string): seq<(SchoolData, string)> {
    var pages := PagesFor(net, config, ids);
    SuccessesValid(ids, Outcomes(net, config, ids));
    Saves(pages.order, pages.entries, Parse(render), clock)
  }

  // ------------------------------------------------------------- the manager

  /** `save_school(school_data)` without a session, seen through `Settle`. */
  method SaveOwn(db: DatabaseManager, record: SchoolData, now: string) returns (result: Result<Saved, DbError>)
    modifies db
    ensures var b := Settle(old(db.committed), OwnSession(old(db.committed), record, now));
      db.committed == b.committed && db.journal == old(db.journal) + b.journal && [result] == b.results
  {
    ghost var o := Upsert(db.committed, db.committed, record, now);
    assert OwnSession(db.committed, record, now) == o;
    var _, r := db.SaveSchool(record, null, now);
    result := r;
  }

  /** One more save extends the run by that save's session. */
  lemma SaveAllStep(upsert: Upserter, committed: Store, saves: seq<(SchoolData, string)>, i: nat)
    requires i < |saves|
    ensures var before := SaveAll(upsert, committed, saves[..i]);
      SaveAll(upsert, committed, saves[..i + 1])
      == Then(before, Settle(before.committed, upsert(before.committed, saves[i].0, saves[i].1)))
  {
    assert saves[..i + 1][..i] == saves[..i];
  }

  lemma AppendJournal(a: seq<TxEvent>, b: seq<TxEvent>, c: seq<TxEvent>)
    ensures a + b + c == a + (b + c)
  {
  }

  /** The loop of `scrape_and_parse` over the fetched pages, in the dict's order: each
      page is parsed and saved with `save_school` in a session of its own. */
  method SavePages(db: DatabaseManager, pages: Pages, parse: string -> SchoolData, clock: nat -> string)
    returns (results: seq<Result<Saved, DbError>>)
    requires pages.Valid()
    modifies db
    ensures var run := SaveAll(OwnSession, old(db.committed), Saves(pages.order, pages.entries, parse, clock));
      && db.committed == run.committed && db.journal == old(db.journal) + run.journal && results == run.results
  {
    ghost var saves := Saves(pages.order, pages.entries, parse, clock);
    ghost var start := db.committed;
    ghost var journal := db.journal;
    results := [];
    for i := 0 to |pages.order|
      invariant db.committed == SaveAll(OwnSession, start, saves[..i]).committed
      invariant db.journal == journal + SaveAll(OwnSession, start, saves[..i]).journal
      invariant results == SaveAll(OwnSession, start, saves[..i]).results
    {
      var schoolData := parse(pages.entries[pages.order[i]]);
      assert saves[i] == (schoolData, clock(i));
      ghost var before := SaveAll(OwnSession, start, saves[..i]);
      var result := SaveOwn(db, schoolData, clock(i));
      SaveAllStep(OwnSession, start, saves, i);
      AppendJournal(journal, before.journal, Settle(before.committed, OwnSession(before.committed, schoolData, clock(i))).journal);
      results := results + [result];
    }
    assert saves[..|pages.order|] == saves;
  }

  /** A `SchoolManager`: its details scraper, and the database behind the module's `db`. */
  class Manager {
    const scraper: Scraper
    const db: DatabaseManager

    /** `SchoolManager()`: a new details scraper. */
    constructor (config: ScrapingConfig, db: DatabaseManager)
      ensures this.db == db && fresh(scraper) && scraper.config == config
      ensures scraper.session == null && scraper.slept == []
    {
      this.db := db;
      scraper := new Scraper(config);
    }

    /** `get_existing_school_ids`: the codes of all stored schools, read in a session of
        its own, which commits (nothing) and closes. */
    method GetExistingSchoolIds() returns (r: Result<set<string>, DbError>)
      modifies db
      ensures db.committed == old(db.committed)
      ensures Flushable(old(db.committed)) ==>
        r == Success(old(db.committed).schools.Keys) && db.journal == old(db.journal) + [TxEvent.Commit, TxEvent.Close]
      ensures !Flushable(old(db.committed)) ==>
        r == Failure(FlushFailed) && db.journal == old(db.journal) + [TxEvent.Commit, TxEvent.Rollback, TxEvent.Close]
    {
      r := db.GetSession((st: Store) => (st, Success(st.schools.Keys)));
    }

    /** `scrape_and_parse` with the call to `run` bound as its signature allows: every
        fetched page is parsed and saved in a session of its own, in the dict's order;
        a failing save is absorbed and the loop goes on. */
    method ScrapeAndParse(ids: seq<string>, net: Network, render: string -> Document, clock: nat -> string)
      returns (results: seq<Result<Saved, DbError>>)
      modifies scraper, db
      ensures fresh(scraper.session) && scraper.session.closed
      ensures scraper.slept == old(scraper.slept) + SleptFor(net, scraper.config, ids)
      ensures var run := SaveAll(OwnSession, old(db.committed), SavesFor(net, scraper.config, ids, render, clock));
        && db.committed == run.committed && db.journal == old(db.journal) + run.journal && results == run.results
    {
      var pages := DetailsScraper.Run(scraper, net, Some(ids));
      results := SavePages(db, pages, Parse(render), clock);
    }

    /** `process_new_schools`: only the codes not stored yet are scraped; with none, nothing
        is requested or saved. */
    method ProcessNewSchools(ids: seq<string>, net: Network, render: string -> Document, clock: nat -> string)
      returns (r: Result<seq<Result<Saved, DbError>>, DbError>)
      modifies scraper, db
      ensures !Flushable(old(db.committed)) ==>
        r == Failure(FlushFailed) && db.committed == old(db.committed) && scraper.slept == old(scraper.slept)
      ensures Flushable(old(db.committed)) ==>
        var unseen := NewIds(ids, old(db.committed).schools.Keys);
        var listed := old(db.journal) + [TxEvent.Commit, TxEvent.Close];
        && (unseen == [] ==>
              r == Success([]) && db.committed == old(db.committed) && db.journal == listed
              && scraper.slept == old(scraper.slept) && scraper.session == old(scraper.session))
        && (unseen != [] ==>
              var run := SaveAll(OwnSession, old(db.committed), SavesFor(net, scraper.config, unseen, render, clock));
              && r == Success(run.results) && db.committed == run.committed && db.journal == listed + run.journal
              && scraper.slept == old(scraper.slept) + SleptFor(net, scraper.config, unseen))
    {
      var existing := GetExistingSchoolIds();
      if existing.Failure? {
        return Failure(existing.error);
      }
      var newIds := NewIds(ids, existing.value);
      if newIds == [] {
        return Success([]);
      }
      var results := ScrapeAndParse(newIds, net, render, clock);
      r := Success(results);
    }

    /** `process_all_schools`: every code given is scraped, stored or not. */
    method ProcessAllSchools(ids: seq<string>, net: Network, render: string -> Document, clock: nat -> string)
      returns (results: seq<Result<Saved, DbError>>)
      modifies scraper, db
      ensures scraper.slept == old(scraper.slept) + SleptFor(net, scraper.config, ids)
      ensures var run := SaveAll(OwnSession, old(db.committed), SavesFor(net, scraper.config, ids, render, clock));
        && db.committed == run.committed && db.journal == old(db.journal) + run.journal && results == run.results
    {
      results := ScrapeAndParse(ids, net, render, clock);
    }
  }
}
