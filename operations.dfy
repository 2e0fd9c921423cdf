/** src/database/operations.py: the DatabaseManager with its URL rewrite, the
    `get_session` commit/rollback/close discipline, and the `save_school` upsert.

    The database is the manager's `committed` store. A session holds `base`, the rows its
    queries can see (the session's sessionmaker sets autoflush=False, so pending objects
    are never visible to a query), and `work`, that view with the session's pending
    changes. Every commit, rollback and close is recorded in the manager's `journal`. */
module Operations {
  import opened Wrappers
  import opened Text
  import opened Records
  import opened Models
  import opened Seqs

  datatype DbError =
    | MissingId             // KeyError: the record has no "id"
    | BadIdentity           // a list id: `session.get` refuses it (one of exactly one string is modelled alike)
    | UnknownAttribute      // TypeError: School(**school_data) with a key that is not an attribute
    | StudiesNotIterable    // TypeError while iterating the popped imparted_studies value
    | FlushFailed           // commit: NULL or duplicate primary key, NOT NULL violated, unbindable value

  datatype TxEvent = Commit | Rollback | Close

  /** What `save_school` returns: the School object, seen as its id and the ids of the
      studies in its `imparted_studies` list, in order. */
  datatype Saved = Saved(id: Value, studyIds: seq<nat>)

  /** The result of one `save_school` body: the store it reached, and the saved school or
      the error it raised. */
  datatype Outcome = Outcome(state: Store, result: Result<Saved, DbError>)

  // ------------------------------------------------------------- the URL rewrite

  /** `url.replace("sqlite:///", "sqlite+aiosqlite:///")` */
  function RewriteUrl(url: string): string {
    ReplaceAll(url, "sqlite:///", "sqlite+aiosqlite:///")
  }

  /** A URL without the SQLite prefix is used as it is. */
  lemma RewriteUrlOther(url: string)
    requires !Contains(url, "sqlite:///")
    ensures RewriteUrl(url) == url
  {
    ReplaceAllNoOccurrence(url, "sqlite:///", "sqlite+aiosqlite:///");
  }

  /** A SQLite URL gets the async driver, and the rest of it is left alone. */
  lemma RewriteUrlSqlite(path: string)
    requires !Contains(path, "sqlite:///")
    ensures RewriteUrl("sqlite:///" + path) == "sqlite+aiosqlite:///" + path
  {
    var url := "sqlite:///" + path;
    assert url[..|"sqlite:///"|] == "sqlite:///";
    assert url[|"sqlite:///"|..] == path;
    RewriteUrlOther(path);
  }

  // ------------------------------------------------------------- save_school, as values

  const StudiesKey := "imparted_studies"

  /** `school_data.pop("imparted_studies", [])`: the popped value and the dict left behind. */
  function PopStudies(record: SchoolData): (r: (Value, SchoolData))
    ensures r.1 == record - {StudiesKey}
    ensures StudiesKey in record ==> r.0 == record[StudiesKey]
    ensures StudiesKey !in record ==> r.0 == Studies([])
  {
    (if StudiesKey in record then record[StudiesKey] else Studies([]), record - {StudiesKey})
  }

  /** `imparted_studies` is not among the keys School is built from: the relationship of
      that name takes ImpartedStudy objects, not the list of study dicts a record carries,
      so `save_school` pops the entry before building or updating the School. */
  lemma StudiesKeyNoAttribute()
    ensures StudiesKey !in Attributes
  {
  }

  /** What `for study_data in imparted_studies_data` walks: a list of study dicts; an empty
      list or empty string walks nothing; anything else fails on its first step (iterating
      None, or indexing a string by "name"). */
  function StudyItems(v: Value): (r: Result<seq<Study>, DbError>)
    ensures v.Studies? ==> r == Success(v.studies)
    ensures r.Failure? ==> r.error == StudiesNotIterable
  {
    match v
    case Studies(ss) => Success(ss)
    case StrList(xs) => if xs == [] then Success([]) else Failure(StudiesNotIterable)
    case Str(t) => if t == "" then Success([]) else Failure(StudiesNotIterable)
    case Null => Failure(StudiesNotIterable)
  }

  /** The `services` column after the keys of `fields` are set on a School whose column
      held `prior`: the property's setter when `services` is given, else the raw
      `_services` value when that is given. A record never carries both keys from the
      parser; for one that does, the model lets `services` win. */
  function ServicesAfter(fields: SchoolData, prior: Value): (r: Value)
    ensures "services" in fields ==> r == ServicesBlob(fields["services"])
    ensures "services" !in fields && "_services" in fields ==> r == fields["_services"]
    ensures "services" !in fields && "_services" !in fields ==> r == prior
  {
    if "services" in fields then ServicesBlob(fields["services"])
    else if "_services" in fields then fields["_services"]
    else prior
  }

  /** The new object built by `School(**school_data)`: given columns as given, missing
      timestamps from the clock, other missing columns NULL, and the `services` column
      from the property's setter or the raw `_services` value; a key that is no attribute
      of School raises TypeError. */
  function NewSchool(fields: SchoolData, now: string): (r: Result<School, DbError>)
    ensures r.Success? <==> fields.Keys <= Attributes
    ensures r.Success? ==> r.value.columns.Keys == Columns
  {
    if !(fields.Keys <= Attributes) then Failure(UnknownAttribute)
    else Success(School(
      map c | c in Columns :: if c in fields then fields[c] else if c == "created_at" || c == "updated_at" then Str(now) else Null,
      ServicesAfter(fields, Null)))
  }

  /** `for key, value in school_data.items(): setattr(school, key, value)`: every column
      given is overwritten, and so is the `services` column when the record names the
      property or `_services`; "id" is set to the value it has, and other keys only set
      attributes the database never sees. */
  function Assign(s: School, fields: SchoolData): (r: School)
    ensures r.columns.Keys == s.columns.Keys
  {
    School(
      map c | c in s.columns :: if c in fields then fields[c] else s.columns[c],
      ServicesAfter(fields, s.services))
  }

  /** The `onupdate` of `updated_at`: when the flush writes the row (some column changed)
      and `updated_at` was not itself changed, it is set from the clock. */
  function Touch(before: School, after: School, now: string): (r: School)
    ensures r.columns.Keys == after.columns.Keys && r.services == after.services
  {
    if after != before && "updated_at" in after.columns && "updated_at" in before.columns
       && after.columns["updated_at"] == before.columns["updated_at"]
    then after.(columns := after.columns["updated_at" := Str(now)])
    else after
  }

  /** `school.imparted_studies = []`: the school's links are dropped. */
  function Unlink(st: Store, id: string): (r: Store)
    ensures r.schools == st.schools && r.studies == st.studies && r.conflicts == st.conflicts
    ensures forall l :: l in r.links <==> l in st.links && l.0 != id
  {
    st.(links := set l | l in st.links && l.0 != id)
  }

  /** The stored study row equals the study dict on all four columns. */
  predicate Matches(row: StudyRow, s: Study) {
    row.name == s.name && row.degree == Some(s.degree) && row.family == Some(s.family) && row.modality == Some(s.modality)
  }

  /** `select(ImpartedStudy).where(<all four equal>)…first()`: the position of the first
      matching row. */
  function FindStudy(rows: seq<StudyRow>, s: Study): (r: Option<nat>)
    ensures r.Some? ==> r.value < |rows| && Matches(rows[r.value], s)
    ensures r.Some? ==> forall j :: 0 <= j < r.value ==> !Matches(rows[j], s)
    ensures r.None? ==> forall j :: 0 <= j < |rows| ==> !Matches(rows[j], s)
    decreases |rows|
  {
    if rows == [] then None
    else if Matches(rows[0], s) then Some(0)
    else match FindStudy(rows[1..], s)
      case None => None
      case Some(i) => Some(i + 1)
  }

  /** The study ids in the school's `imparted_studies` collection as the session loaded
      it: a stored school's links among the rows the session sees; a new object starts
      with an empty collection. */
  function LoadedStudies(base: Store, owner: Option<string>): (r: set<nat>)
    ensures owner.None? || owner.value !in base.schools ==> r == {}
    ensures owner.Some? && owner.value in base.schools ==> forall j :: j in r <==> (owner.value, j) in base.links
  {
    if owner.Some? && owner.value in base.schools then LinkedStudies(base, owner.value) else {}
  }

  /** `school.imparted_studies.append(study)`. The flush inserts a link row for every
      entry of the new list that was not in the `loaded` collection (an entry listed
      twice is inserted twice), and deletes the loaded entries the list no longer holds.
      The list was emptied before the studies loop, so a pair already present was
      appended earlier in the same call; when the study was not in `loaded`, its second
      insert breaks the link table's composite primary key, and the flush will refuse it. */
  function Link(st: Store, owner: string, loaded: set<nat>, id: nat): (r: Store)
    ensures r.schools == st.schools && r.studies == st.studies
    ensures r.links == st.links + {(owner, id)}
    ensures r.conflicts == if (owner, id) in st.links && id !in loaded then st.conflicts + 1 else st.conflicts
  {
    st.(links := st.links + {(owner, id)},
        conflicts := if (owner, id) in st.links && id !in loaded then st.conflicts + 1 else st.conflicts)
  }

  /** One step of the studies loop: reuse the first visible row equal to the study, or
      add a new row; the study's id is linked to `owner` (a school the flush can key)
      whose collection was loaded as `loaded`. */
  function AddStudy(visible: seq<StudyRow>, st: Store, owner: Option<string>, loaded: set<nat>, s: Study, now: string): (r: (Store, nat))
    ensures r.1 >= 1
  {
    var (st1, id) :=
      match FindStudy(visible, s)
      case Some(i) => (st, i + 1)
      case None =>
        var rows := st.studies + [StudyRow(Some(s.degree), Some(s.family), s.name, Some(s.modality), now, now)];
        (st.(studies := rows), |rows|);
    (if owner.Some? then Link(st1, owner.value, loaded, id) else st1, id)
  }

  /** The studies loop: the store after it, and the study id chosen for each item, in order. */
  function LinkStudies(visible: seq<StudyRow>, st: Store, owner: Option<string>, loaded: set<nat>, items: seq<Study>, now: string): (r: (Store, seq<nat>))
    ensures |r.1| == |items|
    decreases |items|
  {
    if items == [] then (st, [])
    else
      var (st1, id) := AddStudy(visible, st, owner, loaded, items[0], now);
      var (st2, ids) := LinkStudies(visible, st1, owner, loaded, items[1..], now);
      (st2, [id] + ids)
  }

  /** Where the school goes: the persistent object of that id is updated; otherwise a new
      object is added, keyed by the id unless the id is NULL or already pending (such an
      object makes the flush fail). */
  function PlaceSchool(base: Store, work: Store, id: Value, fields: SchoolData, now: string): Result<(Store, Option<string>), DbError>
    requires id.Str? || id.Null?
  {
    if id.Str? && id.text in base.schools && id.text in work.schools then
      var before := work.schools[id.text];
      Success((work.(schools := work.schools[id.text := Touch(before, Assign(before, fields), now)]), Some(id.text)))
    else match NewSchool(fields, now)
      case Failure(e) => Failure(e)
      case Success(s) => Success(AddSchool(work, id, s))
  }

  /** `session.add(school)` of a new object: keyed by its id, unless the id is NULL or
      already pending, which leaves an object the flush cannot write. */
  function AddSchool(work: Store, id: Value, s: School): (r: (Store, Option<string>))
    ensures r.0.studies == work.studies && r.0.links == work.links
  {
    if id.Str? && id.text !in work.schools then (work.(schools := work.schools[id.text := s]), Some(id.text))
    else (work.(conflicts := work.conflicts + 1), None)
  }

  /** The body of `save_school` (without commit, rollback and close), from the session's
      visible rows `base` and its pending state `work`. */
  function Upsert(base: Store, work: Store, record: SchoolData, now: string): Outcome {
    var (studiesValue, fields) := PopStudies(record);
    if "id" !in fields then Outcome(work, Failure(MissingId))
    else
      var id := fields["id"];
      if !(id.Str? || id.Null?) then Outcome(work, Failure(BadIdentity))
      else match PlaceSchool(base, work, id, fields, now)
        case Failure(e) => Outcome(work, Failure(e))
        case Success((st, owner)) => LinkPlaced(base, st, owner, id, studiesValue, now)
  }

  /** The rest of `save_school` once the school is placed: a school the flush can key has
      its links cleared, then the studies loop runs. */
  function LinkPlaced(base: Store, st: Store, owner: Option<string>, id: Value, studiesValue: Value, now: string): Outcome {
    var cleared := if owner.Some? then Unlink(st, owner.value) else st;
    var loaded := LoadedStudies(base, owner);
    match StudyItems(studiesValue)
    case Failure(e) => Outcome(cleared, Failure(e))
    case Success(items) =>
      var (linked, ids) := LinkStudies(base.studies, cleared, owner, loaded, items, now);
      Outcome(linked, Success(Saved(id, ids)))
  }

  // ------------------------------------------------------------- the setattr loop

  /** The fields of `fields` whose keys are in `keys`. */
  function Restrict(fields: SchoolData, keys: set<string>): (r: SchoolData)
    ensures r.Keys == fields.Keys * keys
  {
    map k | k in fields && k in keys :: fields[k]
  }

  /** `setattr(school, key, value)`: a column is overwritten, `services` goes through its
      setter, `_services` writes the column as it is, and any other key leaves the stored
      row alone. */
  function SetAttr(s: School, key: string, v: Value): (r: School)
    ensures r.columns.Keys == s.columns.Keys
  {
    School(if key in s.columns then s.columns[key := v] else s.columns,
           if key == "services" then ServicesBlob(v) else if key == "_services" then v else s.services)
  }

  /** Setting one more field extends the assignment by that field, while the `services`
      property is still to come. */
  lemma AssignStep(s: School, fields: SchoolData, done: set<string>, k: string)
    requires k in fields && k !in done && k != "services" && "services" !in done
    ensures Assign(s, Restrict(fields, done + {k})) == SetAttr(Assign(s, Restrict(fields, done)), k, fields[k])
  {
  }

  /** Part way through the setattr loop: the keys done so far are assigned; the
      `services` property is left for the end. */
  ghost predicate Assigned(s: School, fields: SchoolData, done: set<string>, todo: set<string>, r: School) {
    done !! todo && done + todo == fields.Keys - {"services"} && r == Assign(s, Restrict(fields, done))
  }

  lemma AssignedStep(s: School, fields: SchoolData, done: set<string>, todo: set<string>, r: School, k: string)
    requires Assigned(s, fields, done, todo, r) && k in todo
    ensures Assigned(s, fields, done + {k}, todo - {k}, SetAttr(r, k, fields[k]))
  {
    AssignStep(s, fields, done, k);
  }

  /** The setattr loop over the record's items. The keys set different attributes, except
      `services` and `_services`, which both write the `services` column; the loop sets
      the property last, so that it wins as `Assign` says. */
  method SetAttributes(s: School, fields: SchoolData) returns (r: School)
    ensures r == Assign(s, fields)
  {
    r := s;
    var todo := fields.Keys - {"services"};
    ghost var done: set<string> := {};
    AssignedStart(s, fields);
    while todo != {}
      invariant Assigned(s, fields, done, todo, r)
      decreases |todo|
    {
      var k :| k in todo;
      AssignedStep(s, fields, done, todo, r, k);
      r := SetAttr(r, k, fields[k]);
      todo := todo - {k};
      done := done + {k};
    }
    AssignedEnd(s, fields, done, r);
    if "services" in fields {
      r := SetAttr(r, "services", fields["services"]);
    }
  }

  lemma AssignedStart(s: School, fields: SchoolData)
    ensures Assigned(s, fields, {}, fields.Keys - {"services"}, s)
  {
    assert Assign(s, Restrict(fields, {})) == s;
  }

  lemma AssignedEnd(s: School, fields: SchoolData, done: set<string>, r: School)
    requires Assigned(s, fields, done, {}, r)
    ensures (if "services" in fields then SetAttr(r, "services", fields["services"]) else r) == Assign(s, fields)
  {
    assert Restrict(fields, done) == fields - {"services"};
  }

  // ------------------------------------------------------------- sessions

  /** The database behind the manager's engine, with the URL it was opened with and the
      commits, rollbacks and closes of all its sessions, in order. */
  class DatabaseManager {
    const url: string
    var committed: Store
    var journal: seq<TxEvent>

    /** `DatabaseManager()`: the configured URL, rewritten for the async SQLite driver. */
    constructor (configUrl: string, initial: Store)
      ensures url == RewriteUrl(configUrl) && committed == initial && journal == []
    {
      url := RewriteUrl(configUrl);
      committed := initial;
      journal := [];
    }

    /** `self.SessionLocal()`: a new session over the committed rows, with nothing pending. */
    method NewSession() returns (s: Session)
      ensures fresh(s) && s.owner == this && s.base == committed && s.work == committed
    {
      s := new Session(this);
    }

    /** `async with self.get_session() as session: <body>`: the body runs on a new
        session; a normal exit commits, an error (from the body or the commit) rolls back
        and is raised again, and the session is closed in every case. */
    method GetSession<T>(body: Store -> (Store, Result<T, DbError>)) returns (r: Result<T, DbError>)
      modifies this
      ensures var (state, value) := body(old(committed));
        && (value.Success? && Flushable(state) ==>
              r == value && committed == state && journal == old(journal) + [Commit, Close])
        && (value.Success? && !Flushable(state) ==>
              r == Failure(FlushFailed) && committed == old(committed) && journal == old(journal) + [Commit, Rollback, Close])
        && (value.Failure? ==>
              r == value && committed == old(committed) && journal == old(journal) + [Rollback, Close])
    {
      var s := NewSession();
      var (state, value) := body(s.work);
      s.work := state;
      r := s.Finish(value);
    }

    /** `save_school(school_data, session)`. With a caller's session the upsert is only
        staged in it; without one, the call opens its own session, commits on success,
        rolls back on error, and closes it either way. `remaining` is the caller's dict
        after the `imparted_studies` entry was popped. */
    method SaveSchool(record: SchoolData, session: Session?, now: string) returns (remaining: SchoolData, result: Result<Saved, DbError>)
      requires session != null ==> session.owner == this
      modifies this, session
      ensures remaining == record - {StudiesKey}
      ensures session != null ==>
        && committed == old(committed) && journal == old(journal) && session.base == old(session.base)
        && Outcome(session.work, result) == Upsert(old(session.base), old(session.work), record, now)
      ensures session == null ==> var o := Upsert(old(committed), old(committed), record, now);
        && (o.result.Success? && Flushable(o.state) ==>
              result == o.result && committed == o.state && journal == old(journal) + [Commit, Close])
        && (o.result.Success? && !Flushable(o.state) ==>
              result == Failure(FlushFailed) && committed == old(committed) && journal == old(journal) + [Commit, Rollback, Close])
        && (o.result.Failure? ==>
              result == o.result && committed == old(committed) && journal == old(journal) + [Rollback, Close])
    {
      if session != null {
        remaining, result := session.Apply(record, now);
      } else {
        var own := NewSession();
        var staged;
        remaining, staged := own.Apply(record, now);
        result := own.Finish(staged);
      }
    }
  }

  /** An `AsyncSession`: `base` is what its queries see, `work` adds its pending changes. */
  class Session {
    const owner: DatabaseManager
    var base: Store
    var work: Store

    constructor (owner: DatabaseManager)
      ensures this.owner == owner && base == owner.committed && work == owner.committed
    {
      this.owner := owner;
      base := owner.committed;
      work := owner.committed;
    }

    /** `session.commit()`: the flush writes the pending state when the database accepts
        it, and it becomes what the session sees; otherwise nothing is written. */
    method Commit() returns (ok: bool)
      modifies this, owner`committed, owner`journal
      ensures ok == Flushable(old(work))
      ensures owner.journal == old(owner.journal) + [TxEvent.Commit]
      ensures ok ==> owner.committed == old(work) && base == old(work) && work == old(work)
      ensures !ok ==> owner.committed == old(owner.committed) && base == old(base) && work == old(work)
    {
      ok := Flushable(work);
      if ok {
        owner.committed := work;
        base := work;
      }
      owner.journal := owner.journal + [TxEvent.Commit];
    }

    /** `session.rollback()`: the pending changes are discarded. */
    method Rollback()
      modifies this, owner`journal
      ensures base == owner.committed && work == owner.committed
      ensures owner.journal == old(owner.journal) + [TxEvent.Rollback]
    {
      base := owner.committed;
      work := owner.committed;
      owner.journal := owner.journal + [TxEvent.Rollback];
    }

    /** `session.close()`: the session lets go of its objects; it sees the committed rows
        again with nothing pending. */
    method Close()
      modifies this, owner`journal
      ensures base == owner.committed && work == owner.committed
      ensures owner.journal == old(owner.journal) + [TxEvent.Close]
    {
      base := owner.committed;
      work := owner.committed;
      owner.journal := owner.journal + [TxEvent.Close];
    }

    /** The end of a locally owned session: commit after a normal exit, roll back after
        an error (a failed commit included) and raise it again, close in every case. */
    method Finish<T>(value: Result<T, DbError>) returns (r: Result<T, DbError>)
      modifies this, owner`committed, owner`journal
      ensures (value.Success? && Flushable(old(work))) ==>
        r == value && owner.committed == old(work) && owner.journal == old(owner.journal) + [TxEvent.Commit, TxEvent.Close]
      ensures (value.Success? && !Flushable(old(work))) ==>
        r == Failure(FlushFailed) && owner.committed == old(owner.committed) && owner.journal == old(owner.journal) + [TxEvent.Commit, TxEvent.Rollback, TxEvent.Close]
      ensures value.Failure? ==>
        r == value && owner.committed == old(owner.committed) && owner.journal == old(owner.journal) + [TxEvent.Rollback, TxEvent.Close]
    {
      r := value;
      if value.Success? {
        var ok := Commit();
        if !ok {
          Rollback();
          r := Failure(FlushFailed);
        }
      } else {
        Rollback();
      }
      Close();
    }

    /** The body of `save_school` on this session; nothing is committed. */
    method Apply(record: SchoolData, now: string) returns (remaining: SchoolData, result: Result<Saved, DbError>)
      modifies this
      ensures remaining == record - {StudiesKey}
      ensures base == old(base)
      ensures Outcome(work, result) == Upsert(old(base), old(work), record, now)
    {
      var studiesValue := if StudiesKey in record then record[StudiesKey] else Studies([]);
      remaining := record - {StudiesKey};
      if "id" !in remaining {
        return remaining, Failure(MissingId);
      }
      var id := remaining["id"];
      if !(id.Str? || id.Null?) {
        return remaining, Failure(BadIdentity);
      }
      var owned: Option<string>;
      if id.Str? && id.text in base.schools && id.text in work.schools {
        var before := work.schools[id.text];
        var after := SetAttributes(before, remaining);
        work := work.(schools := work.schools[id.text := Touch(before, after, now)]);
        owned := Some(id.text);
      } else {
        var made := NewSchool(remaining, now);
        if made.Failure? {
          return remaining, Failure(made.error);
        }
        work, owned := AddSchool(work, id, made.value).0, AddSchool(work, id, made.value).1;
      }
      ghost var placed := work;
      assert PlaceSchool(base, old(work), id, remaining, now) == Success((placed, owned));
      if owned.Some? {
        work := Unlink(work, owned.value);
      }
      var items := StudyItems(studiesValue);
      if items.Failure? {
        return remaining, Failure(items.error);
      }
      var ids := LinkItems(items.value, owned, LoadedStudies(base, owned), now);
      result := Success(Saved(id, ids));
    }

    /** The studies loop: each study is looked up among the rows the session sees and
        reused, or added as a new row, and linked to the school; `loaded` is the school's
        collection as the session loaded it. */
    method LinkItems(items: seq<Study>, owned: Option<string>, loaded: set<nat>, now: string) returns (ids: seq<nat>)
      modifies this
      ensures base == old(base)
      ensures (work, ids) == LinkStudies(base.studies, old(work), owned, loaded, items, now)
    {
      ids := [];
      LinkingStart(base.studies, work, owned, loaded, items, now);
      for k := 0 to |items|
        invariant base == old(base)
        invariant Linking(base.studies, old(work), owned, loaded, items, now, k, work, ids)
      {
        ghost var w0 := work;
        var found := FindStudy(base.studies, items[k]);
        var sid: nat;
        if found.Some? {
          sid := found.value + 1;
        } else {
          work := work.(studies := work.studies + [StudyRow(Some(items[k].degree), Some(items[k].family), items[k].name, Some(items[k].modality), now, now)]);
          sid := |work.studies|;
        }
        if owned.Some? {
          if (owned.value, sid) in work.links && sid !in loaded {
            work := work.(conflicts := work.conflicts + 1);
          }
          work := work.(links := work.links + {(owned.value, sid)});
        }
        assert (work, sid) == AddStudy(base.studies, w0, owned, loaded, items[k], now);
        LinkingStep(base.studies, old(work), owned, loaded, items, now, k, w0, ids);
        ids := ids + [sid];
      }
      LinkingEnd(base.studies, old(work), owned, loaded, items, now, work, ids);
    }
  }

  /** Part way through the studies loop: running the rest of the loop from `work`, after
      the ids chosen so far, gives what the whole loop gives. */
  ghost predicate Linking(visible: seq<StudyRow>, st: Store, owner: Option<string>, loaded: set<nat>, items: seq<Study>, now: string, k: nat, work: Store, ids: seq<nat>) {
    k <= |items| &&
    var rest := LinkStudies(visible, work, owner, loaded, items[k..], now);
    LinkStudies(visible, st, owner, loaded, items, now) == (rest.0, ids + rest.1)
  }

  lemma LinkingStart(visible: seq<StudyRow>, st: Store, owner: Option<string>, loaded: set<nat>, items: seq<Study>, now: string)
    ensures Linking(visible, st, owner, loaded, items, now, 0, st, [])
  {
    assert items[0..] == items;
    assert [] + LinkStudies(visible, st, owner, loaded, items, now).1 == LinkStudies(visible, st, owner, loaded, items, now).1;
  }

  lemma LinkingStep(visible: seq<StudyRow>, st: Store, owner: Option<string>, loaded: set<nat>, items: seq<Study>, now: string, k: nat, work: Store, ids: seq<nat>)
    requires Linking(visible, st, owner, loaded, items, now, k, work, ids) && k < |items|
    ensures var (work1, id) := AddStudy(visible, work, owner, loaded, items[k], now);
      Linking(visible, st, owner, loaded, items, now, k + 1, work1, ids + [id])
  {
    var (work1, id) := AddStudy(visible, work, owner, loaded, items[k], now);
    LinkStudiesUnfold(visible, work, owner, loaded, items, k, now);
    Associate(ids, [id], LinkStudies(visible, work1, owner, loaded, items[k + 1..], now).1);
  }

  lemma LinkingEnd(visible: seq<StudyRow>, st: Store, owner: Option<string>, loaded: set<nat>, items: seq<Study>, now: string, work: Store, ids: seq<nat>)
    requires Linking(visible, st, owner, loaded, items, now, |items|, work, ids)
    ensures (work, ids) == LinkStudies(visible, st, owner, loaded, items, now)
  {
    assert items[|items|..] == [] && ids + [] == ids;
  }

  /** The studies loop from item k on is one step followed by the loop from k + 1. */
  lemma LinkStudiesUnfold(visible: seq<StudyRow>, st: Store, owner: Option<string>, loaded: set<nat>, items: seq<Study>, k: nat, now: string)
    requires k < |items|
    ensures var (st1, id) := AddStudy(visible, st, owner, loaded, items[k], now);
      var rest := LinkStudies(visible, st1, owner, loaded, items[k + 1..], now);
      LinkStudies(visible, st, owner, loaded, items[k..], now) == (rest.0, [id] + rest.1)
  {
    assert items[k..][0] == items[k] && items[k..][1..] == items[k + 1..];
  }
}
