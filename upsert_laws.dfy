/** Properties of the `save_school` upsert of src/database/operations.py, stated over its
    value model `Operations.Upsert`. */
module UpsertLaws {
  import opened Wrappers
  import opened Records
  import opened Models
  import opened Operations

  /** What a session keeps true: its pending state is well formed and extends the rows
      its queries see. */
  ghost predicate SessionView(base: Store, work: Store) {
    && Valid(base) && Valid(work)
    && base.studies <= work.studies && base.schools.Keys <= work.schools.Keys
  }

  /** The studies loop only appends rows, keeps the schools, never lowers the count of
      unflushable rows, and links only to `owner`: afterwards the links are the old ones
      plus (owner, id) for each chosen id. */
  lemma {:induction false} LinkStudiesEffect(visible: seq<StudyRow>, st: Store, owner: Option<string>, loaded: set<nat>, items: seq<Study>, now: string)
    requires Valid(st) && visible <= st.studies
    requires owner.Some? ==> owner.value in st.schools
    ensures var (out, ids) := LinkStudies(visible, st, owner, loaded, items, now);
      && Valid(out) && st.studies <= out.studies
      && out.schools == st.schools && out.conflicts >= st.conflicts
      && (forall l :: l in out.links <==> l in st.links || (owner.Some? && l.0 == owner.value && l.1 in ids))
    decreases |items|
  {
    if items != [] {
      var (st1, id) := AddStudy(visible, st, owner, loaded, items[0], now);
      assert Valid(st1) && st.studies <= st1.studies && st1.schools == st.schools && st1.conflicts >= st.conflicts;
      assert forall l :: l in st1.links <==> l in st.links || (owner.Some? && l == (owner.value, id));
      LinkStudiesEffect(visible, st1, owner, loaded, items[1..], now);
    }
  }

  /** The id chosen for study `s`: that of the first visible row equal to it, or else the
      id of a row beyond every row in `before` that carries the study's values in `after`. */
  ghost predicate Chose(visible: seq<StudyRow>, before: seq<StudyRow>, after: seq<StudyRow>, s: Study, id: nat) {
    match FindStudy(visible, s)
    case Some(i) => id == i + 1
    case None => |before| < id <= |after| && Matches(after[id - 1], s)
  }

  lemma ChoseLater(visible: seq<StudyRow>, b0: seq<StudyRow>, before: seq<StudyRow>, after: seq<StudyRow>, a2: seq<StudyRow>, s: Study, id: nat)
    requires Chose(visible, before, after, s, id) && |b0| <= |before| && after <= a2
    ensures Chose(visible, b0, a2, s, id)
  {
    if FindStudy(visible, s).None? {
      assert a2[id - 1] == after[id - 1];
    }
  }

  /** Each study gets the id of the first visible row equal to it, or a new row's id
      beyond every row present before; a new row carries the study's four values. */
  lemma {:induction false} LinkStudiesChoice(visible: seq<StudyRow>, st: Store, owner: Option<string>, loaded: set<nat>, items: seq<Study>, now: string, k: nat)
    requires k < |items|
    ensures var (out, ids) := LinkStudies(visible, st, owner, loaded, items, now);
      Chose(visible, st.studies, out.studies, items[k], ids[k])
    decreases |items|
  {
    var (st1, id) := AddStudy(visible, st, owner, loaded, items[0], now);
    var (out, ids) := LinkStudies(visible, st1, owner, loaded, items[1..], now);
    assert LinkStudies(visible, st, owner, loaded, items, now) == (out, [id] + ids);
    AddStudyChoice(visible, st, owner, loaded, items[0], now);
    LinkStudiesRows(visible, st1, owner, loaded, items[1..], now);
    if k > 0 {
      assert items[1..][k - 1] == items[k] && ([id] + ids)[k] == ids[k - 1];
      LinkStudiesChoice(visible, st1, owner, loaded, items[1..], now, k - 1);
      ChoseLater(visible, st.studies, st1.studies, out.studies, out.studies, items[k], ids[k - 1]);
    } else {
      ChoseLater(visible, st.studies, st.studies, st1.studies, out.studies, items[0], id);
    }
  }

  /** One step of the studies loop: the first visible equal row is reused; otherwise the
      new row is the last one and carries the study's values. */
  lemma AddStudyChoice(visible: seq<StudyRow>, st: Store, owner: Option<string>, loaded: set<nat>, s: Study, now: string)
    ensures var (st1, id) := AddStudy(visible, st, owner, loaded, s, now);
      && st.studies <= st1.studies
      && (FindStudy(visible, s).Some? ==> st1.studies == st.studies)
      && Chose(visible, st.studies, st1.studies, s, id)
  {
  }

  /** The studies loop never removes or changes a row. */
  lemma {:induction false} LinkStudiesRows(visible: seq<StudyRow>, st: Store, owner: Option<string>, loaded: set<nat>, items: seq<Study>, now: string)
    ensures st.studies <= LinkStudies(visible, st, owner, loaded, items, now).0.studies
    decreases |items|
  {
    if items != [] {
      var (st1, id) := AddStudy(visible, st, owner, loaded, items[0], now);
      LinkStudiesRows(visible, st1, owner, loaded, items[1..], now);
    }
  }

  /** What placing the school may do: fail only on an unknown attribute; otherwise keep
      the store well formed, keep every other school, and key the placed school by its id
      when the flush can. */
  ghost predicate PlacedWell(work: Store, id: Value, r: Result<(Store, Option<string>), DbError>) {
    match r
    case Failure(e) => e == UnknownAttribute
    case Success((st, owner)) =>
      && Valid(st) && st.studies == work.studies && st.links == work.links
      && work.schools.Keys <= st.schools.Keys
      && (owner.Some? ==> id == Str(owner.value) && owner.value in st.schools)
      && (owner.None? ==> st.schools == work.schools && st.conflicts == work.conflicts + 1)
      && (owner.Some? ==> st.conflicts == work.conflicts)
      && (forall u :: u in work.schools && id != Str(u) ==> st.schools[u] == work.schools[u])
  }

  lemma PlaceSchoolEffect(base: Store, work: Store, id: Value, fields: SchoolData, now: string)
    requires id.Str? || id.Null?
    requires Valid(work)
    ensures PlacedWell(work, id, PlaceSchool(base, work, id, fields, now))
  {
    if id.Str? && id.text in base.schools && id.text in work.schools {
      PlaceExisting(base, work, id.text, fields, now);
    } else if fields.Keys <= Attributes {
      PlaceNew(base, work, id, fields, now);
      AddSchoolWell(work, id, NewSchool(fields, now).value);
    }
  }

  /** A school that is not both stored and pending is added as a new object. */
  lemma PlaceNew(base: Store, work: Store, id: Value, fields: SchoolData, now: string)
    requires id.Str? || id.Null?
    requires !(id.Str? && id.text in base.schools && id.text in work.schools)
    requires fields.Keys <= Attributes
    ensures PlaceSchool(base, work, id, fields, now) == Success(AddSchool(work, id, NewSchool(fields, now).value))
  {
  }

  lemma AddSchoolWell(work: Store, id: Value, s: School)
    requires Valid(work) && s.columns.Keys == Columns
    ensures PlacedWell(work, id, Success(AddSchool(work, id, s)))
  {
    if id.Str? && id.text !in work.schools {
      PutValid(work, id.text, s);
    }
  }

  lemma PlaceExisting(base: Store, work: Store, t: string, fields: SchoolData, now: string)
    requires Valid(work) && t in base.schools && t in work.schools
    ensures PlacedWell(work, Str(t), PlaceSchool(base, work, Str(t), fields, now))
  {
    var before := work.schools[t];
    PutValid(work, t, Touch(before, Assign(before, fields), now));
  }

  /** Putting a school with the full column set keeps the store well formed. */
  lemma PutValid(st: Store, id: string, s: School)
    requires Valid(st) && s.columns.Keys == Columns
    ensures Valid(st.(schools := st.schools[id := s]))
  {
  }

  /** An upsert keeps the session invariant, and never drops a school or a study row. */
  lemma UpsertKeepsView(base: Store, work: Store, record: SchoolData, now: string)
    requires SessionView(base, work)
    ensures var out := Upsert(base, work, record, now).state;
      && SessionView(base, out)
      && work.studies <= out.studies && work.schools.Keys <= out.schools.Keys
  {
    var (studiesValue, fields) := PopStudies(record);
    if "id" in fields && (fields["id"].Str? || fields["id"].Null?) {
      var id := fields["id"];
      PlaceSchoolEffect(base, work, id, fields, now);
      var r := PlaceSchool(base, work, id, fields, now);
      if r.Success? {
        var (st, owner) := r.value;
        LinkPlacedKeeps(base, st, owner, id, studiesValue, now);
      }
    }
  }

  /** Clearing the links and running the studies loop keep the store well formed, keep
      its schools and only append study rows. */
  lemma LinkPlacedKeeps(base: Store, st: Store, owner: Option<string>, id: Value, studiesValue: Value, now: string)
    requires Valid(st) && base.studies <= st.studies
    requires owner.Some? ==> owner.value in st.schools
    ensures var out := LinkPlaced(base, st, owner, id, studiesValue, now).state;
      && Valid(out) && st.studies <= out.studies && out.schools == st.schools
  {
    var cleared := if owner.Some? then Unlink(st, owner.value) else st;
    assert Valid(cleared);
    match StudyItems(studiesValue)
    case Failure(_) =>
    case Success(items) =>
      LinkStudiesEffect(base.studies, cleared, owner, LoadedStudies(base, owner), items, now);
  }

  // ------------------------------------------------------------- the upsert, stage by stage

  /** With a usable id, the upsert is the placement followed by the link rebuild. */
  lemma UpsertPlaced(base: Store, work: Store, record: SchoolData, now: string)
    requires "id" in record && (record["id"].Str? || record["id"].Null?)
    ensures var p := PlaceSchool(base, work, record["id"], record - {StudiesKey}, now);
      Upsert(base, work, record, now)
        == if p.Failure? then Outcome(work, Failure(p.error))
           else LinkPlaced(base, p.value.0, p.value.1, record["id"], PopStudies(record).0, now)
  {
    assert (record - {StudiesKey})["id"] == record["id"];
  }

  /** The link rebuild leaves the schools as placed. */
  lemma LinkPlacedSchools(base: Store, st: Store, owner: Option<string>, id: Value, studiesValue: Value, now: string)
    requires Valid(st) && base.studies <= st.studies
    requires owner.Some? ==> owner.value in st.schools
    ensures LinkPlaced(base, st, owner, id, studiesValue, now).state.schools == st.schools
  {
    LinkPlacedKeeps(base, st, owner, id, studiesValue, now);
  }

  /** The schools after an upsert with a usable id are the schools after placing it. */
  lemma UpsertSchools(base: Store, work: Store, record: SchoolData, now: string)
    requires SessionView(base, work)
    requires "id" in record && (record["id"].Str? || record["id"].Null?)
    ensures var p := PlaceSchool(base, work, record["id"], record - {StudiesKey}, now);
      p.Success? ==> Upsert(base, work, record, now).state.schools == p.value.0.schools
  {
    var id := record["id"];
    var fields := record - {StudiesKey};
    UpsertPlaced(base, work, record, now);
    PlaceSchoolEffect(base, work, id, fields, now);
    var p := PlaceSchool(base, work, id, fields, now);
    if p.Success? {
      LinkPlacedSchools(base, p.value.0, p.value.1, id, PopStudies(record).0, now);
    }
  }

  // ------------------------------------------------------------- the school row

  /** The value a new school's column takes: the record's, else the clock for the two
      timestamps, else NULL. */
  function InsertValue(record: SchoolData, c: string, now: string): Value {
    if c in record then record[c] else if c == "created_at" || c == "updated_at" then Str(now) else Null
  }

  /** `s` is the row a new School built from `record` has. */
  ghost predicate NewRow(record: SchoolData, now: string, s: School) {
    && s.columns.Keys == Columns
    && (forall c :: c in Columns ==> s.columns[c] == InsertValue(record, c, now))
    && s.services == (if "services" in record then ServicesBlob(record["services"])
                      else if "_services" in record then record["_services"] else Null)
  }

  /** The record writes the `services` column with the value it already holds, or does
      not write it: through the property, or else through `_services`. */
  ghost predicate SameServices(before: School, record: SchoolData) {
    && ("services" in record ==> ServicesBlob(record["services"]) == before.services)
    && ("services" !in record && "_services" in record ==> record["_services"] == before.services)
  }

  /** `after` is `before` updated from `record`: exactly the columns the record names are
      overwritten, and so is the `services` column when it names the property (through
      the setter) or `_services` (as it is); `updated_at` is
      the record's or the old value, or the clock when the row changes; a record that
      changes nothing leaves the row as it was. */
  ghost predicate UpdatedRow(before: School, record: SchoolData, now: string, after: School) {
    && after.columns.Keys == before.columns.Keys == Columns
    && (forall c :: c in Columns && c != "updated_at" ==>
          after.columns[c] == if c in record then record[c] else before.columns[c])
    && after.services == (if "services" in record then ServicesBlob(record["services"])
                          else if "_services" in record then record["_services"] else before.services)
    && (after.columns["updated_at"] == Str(now)
        || after.columns["updated_at"] == if "updated_at" in record then record["updated_at"] else before.columns["updated_at"])
    && ((forall c :: c in record && c in Columns ==> record[c] == before.columns[c])
        && SameServices(before, record)
        ==> after == before)
  }

  lemma NewSchoolRow(record: SchoolData, now: string)
    requires (record - {StudiesKey}).Keys <= Attributes
    ensures NewSchool(record - {StudiesKey}, now).Success?
    ensures NewRow(record, now, NewSchool(record - {StudiesKey}, now).value)
  {
    var fields := record - {StudiesKey};
    var s := NewSchool(fields, now).value;
    forall c | c in Columns
      ensures s.columns[c] == InsertValue(record, c, now)
    {
      StudiesKeyNoAttribute();
      assert c in fields <==> c in record;
    }
    assert "services" in fields <==> "services" in record;
    assert "services" in fields ==> fields["services"] == record["services"];
    assert "_services" in fields <==> "_services" in record;
    assert "_services" in fields ==> fields["_services"] == record["_services"];
  }

  lemma AssignRow(before: School, record: SchoolData, now: string)
    requires before.columns.Keys == Columns
    ensures UpdatedRow(before, record, now, Touch(before, Assign(before, record - {StudiesKey}), now))
  {
    var after := Assign(before, record - {StudiesKey});
    AssignColumns(before, record);
    TouchEffect(before, after, now);
    if (forall c :: c in record && c in Columns ==> record[c] == before.columns[c])
       && SameServices(before, record) {
      AssignNoChange(before, record);
    }
  }

  /** The setattr loop overwrites exactly the columns the record names. */
  lemma AssignColumns(before: School, record: SchoolData)
    requires before.columns.Keys == Columns
    ensures var after := Assign(before, record - {StudiesKey});
      && after.columns.Keys == before.columns.Keys
      && (forall c :: c in before.columns ==> after.columns[c] == if c in record then record[c] else before.columns[c])
      && after.services == (if "services" in record then ServicesBlob(record["services"])
                          else if "_services" in record then record["_services"] else before.services)
  {
    StudiesKeyNoAttribute();
  }

  /** A record that agrees with the row on every column it names, and on services,
      changes nothing. */
  lemma AssignNoChange(before: School, record: SchoolData)
    requires before.columns.Keys == Columns
    requires forall c :: c in record && c in Columns ==> record[c] == before.columns[c]
    requires SameServices(before, record)
    ensures Assign(before, record - {StudiesKey}) == before
  {
    AssignColumns(before, record);
    assert Assign(before, record - {StudiesKey}).columns == before.columns;
  }

  /** The `onupdate` refresh touches only `updated_at`, and only when the row changed. */
  lemma TouchEffect(before: School, after: School, now: string)
    ensures var r := Touch(before, after, now);
      && r.columns.Keys == after.columns.Keys && r.services == after.services
      && (forall c :: c in after.columns && c != "updated_at" ==> r.columns[c] == after.columns[c])
      && ("updated_at" in after.columns ==> r.columns["updated_at"] == Str(now) || r.columns["updated_at"] == after.columns["updated_at"])
      && (after == before ==> r == before)
  {
  }

  /** No School has the id: a new one is added with the given columns, the defaults for
      the others, and the `services` column from the setter or `_services`; the other
      schools are not touched.
      A key that is no attribute of School fails the call and leaves the session as it was. */
  lemma UpsertInserts(base: Store, work: Store, record: SchoolData, now: string, t: string)
    requires SessionView(base, work)
    requires "id" in record && record["id"] == Str(t) && t !in work.schools
    ensures var o := Upsert(base, work, record, now);
      && (!((record - {StudiesKey}).Keys <= Attributes) ==> o == Outcome(work, Failure(UnknownAttribute)))
      && ((record - {StudiesKey}).Keys <= Attributes ==>
            && t in o.state.schools
            && o.state.schools == work.schools[t := o.state.schools[t]]
            && NewRow(record, now, o.state.schools[t]))
  {
    var fields := record - {StudiesKey};
    UpsertPlaced(base, work, record, now);
    if fields.Keys <= Attributes {
      PlaceNew(base, work, Str(t), fields, now);
      UpsertSchools(base, work, record, now);
      NewSchoolRow(record, now);
    }
  }

  /** The School exists: its row is updated from the record, and the other schools are
      not touched. */
  lemma UpsertUpdates(base: Store, work: Store, record: SchoolData, now: string, t: string)
    requires SessionView(base, work)
    requires "id" in record && record["id"] == Str(t) && t in base.schools
    ensures var out := Upsert(base, work, record, now).state;
      && t in work.schools && t in out.schools
      && out.schools == work.schools[t := out.schools[t]]
      && UpdatedRow(work.schools[t], record, now, out.schools[t])
  {
    UpsertSchools(base, work, record, now);
    AssignRow(work.schools[t], record, now);
  }

  // ------------------------------------------------------------- the links

  /** The studies a record lists: none when it has no `imparted_studies` entry. */
  function ListedStudies(record: SchoolData): (r: Result<seq<Study>, DbError>)
    ensures StudiesKey !in record ==> r == Success([])
  {
    StudyItems(PopStudies(record).0)
  }

  /** After a successful save of a school the flush can key, its links are exactly the
      chosen study ids, one per listed study, and the links of every other school are as
      they were. */
  lemma UpsertLinks(base: Store, work: Store, record: SchoolData, now: string, t: string, ids: seq<nat>)
    requires SessionView(base, work)
    requires "id" in record && record["id"] == Str(t) && (t in base.schools || t !in work.schools)
    requires Upsert(base, work, record, now).result == Success(Saved(Str(t), ids))
    ensures ListedStudies(record).Success? && |ids| == |ListedStudies(record).value|
    ensures var out := Upsert(base, work, record, now).state;
      && (forall j :: j in LinkedStudies(out, t) <==> j in ids)
      && (forall u :: u != t ==> LinkedStudies(out, u) == LinkedStudies(work, u))
  {
    var fields := record - {StudiesKey};
    UpsertPlaced(base, work, record, now);
    PlaceSchoolEffect(base, work, Str(t), fields, now);
    var (st, owner) := PlaceSchool(base, work, Str(t), fields, now).value;
    assert owner == Some(t) by {
      if t !in work.schools {
        PlaceNew(base, work, Str(t), fields, now);
      }
    }
    var cleared := Unlink(st, t);
    var items := ListedStudies(record).value;
    LinkStudiesEffect(base.studies, cleared, owner, LoadedStudies(base, owner), items, now);
  }

  /** Every link the studies loop appends for a study outside the `loaded` collection is
      new: it was not linked to `owner` before, and its id is not chosen earlier in the loop. */
  ghost predicate FreshLinks(links: set<(string, nat)>, owner: string, loaded: set<nat>, ids: seq<nat>) {
    && (forall k :: 0 <= k < |ids| && ids[k] !in loaded ==> (owner, ids[k]) !in links)
    && (forall j, k :: 0 <= j < k < |ids| && ids[k] !in loaded ==> ids[j] != ids[k])
  }

  lemma FreshLinksCons(links: set<(string, nat)>, owner: string, loaded: set<nat>, id: nat, rest: seq<nat>)
    ensures FreshLinks(links, owner, loaded, [id] + rest) <==>
              (id in loaded || (owner, id) !in links) && FreshLinks(links + {(owner, id)}, owner, loaded, rest)
  {
    var ids := [id] + rest;
    assert forall k :: 0 < k < |ids| ==> ids[k] == rest[k - 1];
    if (id in loaded || (owner, id) !in links) && FreshLinks(links + {(owner, id)}, owner, loaded, rest) {
      forall j, k | 0 <= j < k < |ids| && ids[k] !in loaded ensures ids[j] != ids[k] {
        if j > 0 {
          assert ids[j] == rest[j - 1] && ids[k] == rest[k - 1];
        } else {
          assert (owner, rest[k - 1]) !in links + {(owner, id)};
        }
      }
    }
    if FreshLinks(links, owner, loaded, ids) {
      assert ids[0] == id;
      forall k | 0 <= k < |rest| && rest[k] !in loaded ensures (owner, rest[k]) !in links + {(owner, id)} {
        assert rest[k] == ids[k + 1] && ids[0] != ids[k + 1];
      }
      forall j, k | 0 <= j < k < |rest| && rest[k] !in loaded ensures rest[j] != rest[k] {
        assert rest[j] == ids[j + 1] && rest[k] == ids[k + 1];
      }
    }
  }

  /** For a school the flush can key, the studies loop adds no unflushable row exactly
      when every link it appends for a study outside the loaded collection is new: such a
      study was not linked to the school before the loop, and is not chosen twice. */
  lemma {:induction false} LinkStudiesConflicts(visible: seq<StudyRow>, st: Store, owner: Option<string>, loaded: set<nat>, items: seq<Study>, now: string)
    requires owner.Some?
    ensures var (out, ids) := LinkStudies(visible, st, owner, loaded, items, now);
      && out.conflicts >= st.conflicts
      && (out.conflicts == st.conflicts <==> FreshLinks(st.links, owner.value, loaded, ids))
    decreases |items|
  {
    if items != [] {
      var (st1, id) := AddStudy(visible, st, owner, loaded, items[0], now);
      var (out, rest) := LinkStudies(visible, st1, owner, loaded, items[1..], now);
      assert LinkStudies(visible, st, owner, loaded, items, now) == (out, [id] + rest);
      LinkStudiesConflicts(visible, st1, owner, loaded, items[1..], now);
      assert st1.links == st.links + {(owner.value, id)};
      FreshLinksCons(st.links, owner.value, loaded, id, rest);
    }
  }

  /** A save that links one study row to the school twice, where the school's stored
      collection did not hold that study (a new school, or a study new to it), leaves a
      session that cannot be committed: its flush would insert the same row of the link
      table twice. */
  lemma UpsertRepeatRefused(base: Store, work: Store, record: SchoolData, now: string, j: nat, k: nat)
    requires SessionView(base, work)
    requires Upsert(base, work, record, now).result.Success?
    requires j < k < |Upsert(base, work, record, now).result.value.studyIds|
    requires Upsert(base, work, record, now).result.value.studyIds[j] == Upsert(base, work, record, now).result.value.studyIds[k]
    requires var saved := Upsert(base, work, record, now).result.value;
      saved.id.Str? ==> (saved.id.text, saved.studyIds[k]) !in base.links
    ensures !Flushable(Upsert(base, work, record, now).state)
  {
    var id := record["id"];
    var fields := record - {StudiesKey};
    assert "id" in fields;
    UpsertPlaced(base, work, record, now);
    PlaceSchoolEffect(base, work, id, fields, now);
    var (st, owner) := PlaceSchool(base, work, id, fields, now).value;
    var items := ListedStudies(record).value;
    var loaded := LoadedStudies(base, owner);
    if owner.Some? {
      var cleared := Unlink(st, owner.value);
      LinkStudiesConflicts(base.studies, cleared, owner, loaded, items, now);
      var ids := Upsert(base, work, record, now).result.value.studyIds;
      assert ids[k] !in loaded;
    } else {
      LinkStudiesEffect(base.studies, st, owner, loaded, items, now);
    }
  }

  /** Saving a stored school again with studies it is already linked to adds no row the
      flush refuses, however often a study is listed: the list is compared with the
      loaded collection, and only new entries are inserted. */
  lemma UpsertRepeatLoaded(base: Store, work: Store, record: SchoolData, now: string, t: string)
    requires SessionView(base, work)
    requires "id" in record && record["id"] == Str(t) && t in base.schools
    requires Upsert(base, work, record, now).result.Success?
    requires var ids := Upsert(base, work, record, now).result.value.studyIds;
      forall k :: 0 <= k < |ids| ==> (t, ids[k]) in base.links
    ensures Upsert(base, work, record, now).state.conflicts == work.conflicts
  {
    var fields := record - {StudiesKey};
    UpsertPlaced(base, work, record, now);
    PlaceSchoolEffect(base, work, Str(t), fields, now);
    PlaceExisting(base, work, t, fields, now);
    var (st, owner) := PlaceSchool(base, work, Str(t), fields, now).value;
    var items := ListedStudies(record).value;
    var cleared := Unlink(st, t);
    LinkStudiesConflicts(base.studies, cleared, owner, LoadedStudies(base, owner), items, now);
  }

  /** Each listed study is linked to the first stored row equal to it, or to a new row
      beyond the rows present before, which carries the study's values. */
  lemma UpsertReuse(base: Store, work: Store, record: SchoolData, now: string, k: nat)
    requires SessionView(base, work)
    requires Upsert(base, work, record, now).result.Success?
    requires ListedStudies(record).Success? && k < |ListedStudies(record).value|
    ensures var o := Upsert(base, work, record, now);
      && k < |o.result.value.studyIds|
      && Chose(base.studies, work.studies, o.state.studies, ListedStudies(record).value[k], o.result.value.studyIds[k])
  {
    var id := record["id"];
    var fields := record - {StudiesKey};
    UpsertPlaced(base, work, record, now);
    PlaceSchoolEffect(base, work, id, fields, now);
    var (st, owner) := PlaceSchool(base, work, id, fields, now).value;
    var cleared := if owner.Some? then Unlink(st, owner.value) else st;
    var items := ListedStudies(record).value;
    LinkStudiesChoice(base.studies, cleared, owner, LoadedStudies(base, owner), items, now, k);
  }

  // ------------------------------------------------------------- errors

  /** Which error a save raises, and when: a missing id, an id that is a list, an unknown
      attribute on a new school, or studies that cannot be iterated. Only the last comes
      after the school was placed; the others leave the session as it was. */
  lemma UpsertFails(base: Store, work: Store, record: SchoolData, now: string)
    requires Valid(work)
    ensures var o := Upsert(base, work, record, now);
      && (o.result == Failure(MissingId) <==> "id" !in record)
      && (o.result == Failure(BadIdentity) <==> "id" in record && !(record["id"].Str? || record["id"].Null?))
      && (o.result == Failure(UnknownAttribute) <==>
            && "id" in record && (record["id"].Str? || record["id"].Null?)
            && !(record["id"].Str? && record["id"].text in base.schools && record["id"].text in work.schools)
            && !((record - {StudiesKey}).Keys <= Attributes))
      && (o.result == Failure(StudiesNotIterable) ==> ListedStudies(record).Failure?)
      && (o.result.Failure? && o.result.error != StudiesNotIterable ==> o.state == work)
      && (o.result.Failure? ==> o.state.studies == work.studies)
  {
    if "id" in record && (record["id"].Str? || record["id"].Null?) {
      var id := record["id"];
      var fields := record - {StudiesKey};
      UpsertPlaced(base, work, record, now);
      PlaceSchoolEffect(base, work, id, fields, now);
      if !(id.Str? && id.text in base.schools && id.text in work.schools) && fields.Keys <= Attributes {
        PlaceNew(base, work, id, fields, now);
      }
    } else {
      assert "id" in record ==> (record - {StudiesKey})["id"] == record["id"];
    }
  }

  /** A successful save had an id and iterable studies, and chose one id per study. */
  lemma UpsertSucceeds(base: Store, work: Store, record: SchoolData, now: string)
    requires Upsert(base, work, record, now).result.Success?
    ensures "id" in record && ListedStudies(record).Success?
    ensures |Upsert(base, work, record, now).result.value.studyIds| == |ListedStudies(record).value|
  {
    assert "id" in record - {StudiesKey};
    UpsertPlaced(base, work, record, now);
  }

  // ------------------------------------------------------------- saving again

  /** Every study has an equal row among `visible`. */
  ghost predicate AllKnown(visible: seq<StudyRow>, items: seq<Study>) {
    forall k :: 0 <= k < |items| ==> FindStudy(visible, items[k]).Some?
  }

  /** When every study is already stored, the studies loop adds no row. */
  lemma {:induction false} LinkStudiesKnown(visible: seq<StudyRow>, st: Store, owner: Option<string>, loaded: set<nat>, items: seq<Study>, now: string)
    requires AllKnown(visible, items)
    ensures LinkStudies(visible, st, owner, loaded, items, now).0.studies == st.studies
    decreases |items|
  {
    if items != [] {
      var (st1, id) := AddStudy(visible, st, owner, loaded, items[0], now);
      assert FindStudy(visible, items[0]).Some?;
      assert AllKnown(visible, items[1..]) by {
        forall k | 0 <= k < |items[1..]| ensures FindStudy(visible, items[1..][k]).Some? {
          assert items[1..][k] == items[k + 1];
        }
      }
      LinkStudiesKnown(visible, st1, owner, loaded, items[1..], now);
    }
  }

  /** A chosen row is found again by a lookup in any table that extends the visible rows
      and holds the chosen row. */
  lemma ChoseFound(visible: seq<StudyRow>, before: seq<StudyRow>, after: seq<StudyRow>, s: Study, id: nat)
    requires visible <= after && Chose(visible, before, after, s, id)
    ensures FindStudy(after, s).Some?
  {
    match FindStudy(visible, s)
    case Some(i) => assert after[i] == visible[i];
    case None =>
  }

  /** Saving the same record again on what the first save committed adds no study row:
      every study it lists is found among the stored rows. */
  lemma ResaveAddsNoRows(base: Store, work: Store, record: SchoolData, now: string, later: string)
    requires SessionView(base, work)
    requires Upsert(base, work, record, now).result.Success?
    ensures var st := Upsert(base, work, record, now).state;
      Upsert(st, st, record, later).state.studies == st.studies
  {
    var st := Upsert(base, work, record, now).state;
    UpsertKeepsView(base, work, record, now);
    UpsertSucceeds(base, work, record, now);
    var items := ListedStudies(record).value;
    forall k | 0 <= k < |items| ensures FindStudy(st.studies, items[k]).Some? {
      UpsertReuse(base, work, record, now, k);
      ChoseFound(base.studies, work.studies, st.studies, items[k], Upsert(base, work, record, now).result.value.studyIds[k]);
    }
    var id := record["id"];
    if id.Str? || id.Null? {
      var fields := record - {StudiesKey};
      UpsertPlaced(st, st, record, later);
      PlaceSchoolEffect(st, st, id, fields, later);
      var p := PlaceSchool(st, st, id, fields, later);
      if p.Success? {
        var (placed, owner) := p.value;
        var cleared := if owner.Some? then Unlink(placed, owner.value) else placed;
        LinkStudiesKnown(st.studies, cleared, owner, LoadedStudies(st, owner), items, later);
      }
    }
  }

  /** Rows are looked up only among stored rows, so a study listed twice in one call is
      added twice: both get a new row of their own. */
  lemma DuplicateStudyTwoRows(s: Study, now: string)
    ensures var record := map["id" := Str("1"), "name" := Str("A"), StudiesKey := Studies([s, s])];
      var o := Upsert(Empty, Empty, record, now);
      && o.result.Success? && o.result.value.studyIds == [1, 2]
      && |o.state.studies| == 2 && o.state.studies[0] == o.state.studies[1]
  {
    var record := map["id" := Str("1"), "name" := Str("A"), StudiesKey := Studies([s, s])];
    var fields := record - {StudiesKey};
    StudiesKeyNoAttribute();
    assert fields.Keys == {"id", "name"};
    UpsertPlaced(Empty, Empty, record, now);
    PlaceNew(Empty, Empty, Str("1"), fields, now);
    var (placed, owner) := PlaceSchool(Empty, Empty, Str("1"), fields, now).value;
    assert owner == Some("1") && placed.studies == [];
    LinkTwiceFresh(Unlink(placed, "1"), owner, LoadedStudies(Empty, owner), s, now);
  }

  /** With nothing stored, the same study listed twice gets two new rows. */
  lemma LinkTwiceFresh(st: Store, owner: Option<string>, loaded: set<nat>, s: Study, now: string)
    requires st.studies == []
    ensures var (out, ids) := LinkStudies([], st, owner, loaded, [s, s], now);
      ids == [1, 2] && |out.studies| == 2 && out.studies[0] == out.studies[1]
  {
    var row := StudyRow(Some(s.degree), Some(s.family), s.name, Some(s.modality), now, now);
    var (c1, i1) := AddStudy([], st, owner, loaded, s, now);
    assert c1.studies == [row] && i1 == 1;
    var (c2, i2) := AddStudy([], c1, owner, loaded, s, now);
    assert [row] + [row] == [row, row];
    assert c2.studies == [row, row] && i2 == 2;
    assert [s, s][1..] == [s] && [s][1..] == [];
    assert LinkStudies([], c2, owner, loaded, [], now) == (c2, []);
    assert [i2] + [] == [2];
    assert LinkStudies([], c1, owner, loaded, [s], now) == (c2, [2]);
    assert [i1] + [2] == [1, 2];
  }
}
