/** The schema of src/database/models.py: the `schools` and `imparted_studies` tables, the
    `school_studies` link table, the timestamp columns, and the JSON-backed `services`
    property. */
module Models {
  import opened Wrappers
  import opened Records
  import JsonList

  /** The stored columns of `schools` besides the primary key and `services`. */
  const DataColumns: set<string> := {"name", "phone", "fax", "email", "website",
    "autonomous_community", "province", "country", "region", "sub_region", "municipality",
    "locality", "address", "postal_code", "nature", "is_concerted", "center_type", "generic_name"}

  const Columns: set<string> := DataColumns + {"created_at", "updated_at"}

  /** The constructor keywords of School the model accepts: its columns, its key, the
      `services` property and `_services`, the attribute mapped to the `services` column.
      Any other key is modelled as the TypeError of an unknown keyword (`imparted_studies`
      is popped from the record before School sees it). */
  const Attributes: set<string> := Columns + {"id", "services", "_services"}

  /** A row of `schools`, keyed by its id in the store; `services` is the value of the
      `_services` attribute, the raw content of the `services` column. Column values are
      held as they were assigned; whether the database accepts them is decided when the
      row is flushed (see `Flushable`). */
  datatype School = School(columns: map<string, Value>, services: Value)

  /** A row of `imparted_studies`; its surrogate id is its position in the table plus one. */
  datatype StudyRow = StudyRow(
    degree: Option<string>, family: Option<string>, name: string, modality: Option<string>,
    createdAt: string, updatedAt: string)

  /** The whole database, or a session's view of it with its pending changes.
      `conflicts` counts pending rows that cannot be flushed: a School with a NULL primary
      key, a second new School for an id that is already pending, or a second insert of
      one (school, study) pair into the link table. */
  datatype Store = Store(
    schools: map<string, School>,
    studies: seq<StudyRow>,
    links: set<(string, nat)>,
    conflicts: nat)

  /** Structural invariant: every school has exactly the column set, and every link joins
      an existing school to an existing study id (the two foreign keys). */
  ghost predicate Valid(st: Store) {
    && (forall id :: id in st.schools ==> st.schools[id].columns.Keys == Columns)
    && (forall l :: l in st.links ==> l.0 in st.schools && 1 <= l.1 <= |st.studies|)
  }

  /** A column value the database can bind: a string or NULL. */
  predicate Bindable(v: Value) {
    v.Null? || v.Str?
  }

  /** The NOT NULL columns: `name`, and the two `Mapped[str]` timestamps. */
  const NotNullColumns: set<string> := {"name", "created_at", "updated_at"}

  /** A school row the database accepts: every column bindable, the NOT NULL ones set. */
  predicate RowFlushable(s: School) {
    && (forall c :: c in s.columns ==> Bindable(s.columns[c]))
    && Bindable(s.services)
    && (forall c :: c in NotNullColumns ==> c in s.columns && s.columns[c].Str?)
  }

  /** What a flush (and so a commit) of `st` requires. */
  predicate Flushable(st: Store) {
    && st.conflicts == 0
    && (forall id :: id in st.schools ==> RowFlushable(st.schools[id]))
  }

  /** The empty database. */
  const Empty: Store := Store(map[], [], {}, 0)

  lemma EmptyValid()
    ensures Valid(Empty) && Flushable(Empty)
  {
  }

  /** The study ids linked to `id`. */
  function LinkedStudies(st: Store, id: string): (r: set<nat>)
    ensures forall j :: j in r <==> (id, j) in st.links
  {
    set l | l in st.links && l.0 == id :: l.1
  }

  // ------------------------------------------------------------- services column

  /** json.dumps of one imparted-study dict: `{"degree": …, "family": …, "name": …, "modality": …}`. */
  function EncodeStudy(s: Study): string {
    "{\"degree\": " + JsonList.Quote(s.degree) + ", \"family\": " + JsonList.Quote(s.family)
      + ", \"name\": " + JsonList.Quote(s.name) + ", \"modality\": " + JsonList.Quote(s.modality) + "}"
  }

  function EncodeStudies(ss: seq<Study>): string
    decreases |ss|
  {
    if ss == [] then "" else if |ss| == 1 then EncodeStudy(ss[0]) else EncodeStudy(ss[0]) + ", " + EncodeStudies(ss[1..])
  }

  /** The `services` setter: None stores NULL; any other value stores json.dumps(value),
      so the column always holds something the database can bind. */
  function ServicesBlob(v: Value): (r: Value)
    ensures r.Null? <==> v.Null?
    ensures Bindable(r)
    ensures v.StrList? ==> r == Str(JsonList.Encode(v.items))
  {
    match v
    case Null => Null
    case Str(t) => Str(JsonList.Quote(t))
    case StrList(xs) => Str(JsonList.Encode(xs))
    case Studies(ss) => Str("[" + EncodeStudies(ss) + "]")
  }

  /** The `services` getter: [] when `_services` is falsy (NULL, "" or an empty list),
      else json.loads of it (None when it is not the JSON text of a list of strings, and
      for a non-empty list, which json.loads refuses). */
  function Services(blob: Value): (r: Option<seq<string>>)
    ensures (blob.Null? || blob == Str("")) ==> r == Some([])
    ensures blob.StrList? ==> (r.Some? <==> blob.items == [])
  {
    match blob
    case Null => Some([])
    case Str(text) => if text == "" then Some([]) else JsonList.Decode(text)
    case StrList(xs) => if xs == [] then Some([]) else None
    case Studies(ss) => if ss == [] then Some([]) else None
  }

  /** Set-then-get: setting a list and reading it back gives that list, and setting None
      reads back as []. */
  lemma ServicesSetThenGet(v: Value)
    requires v.Null? || v.StrList?
    ensures Services(ServicesBlob(v)) == Some(if v.Null? then [] else v.items)
  {
    if v.StrList? {
      JsonList.DecodeEncode(v.items);
    }
  }

  /** An empty list is stored as the non-empty text "[]", not as NULL. */
  lemma EmptyServicesStored()
    ensures ServicesBlob(StrList([])) == Str("[]")
    ensures Services(ServicesBlob(StrList([]))) == Some([])
  {
    JsonList.DecodeEncode([]);
  }
}
