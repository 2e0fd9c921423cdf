/** The plain record that travels from the details parser, through the manager, to the
    store: the `Dict[str, Any]` returned by `parse_all` and consumed by `save_school`. */
module Records {

  /** One imparted-study dict as the parser builds it: four stripped cell texts. */
  datatype Study = Study(degree: string, family: string, name: string, modality: string)

  /** The values such a dict holds: None, a string, a list of strings (services) or a
      list of study dicts (imparted_studies). */
  datatype Value = Null | Str(text: string) | StrList(items: seq<string>) | Studies(studies: seq<Study>)

  type SchoolData = map<string, Value>

  /** A string-to-string dict seen as a record. */
  function Lift(m: map<string, string>): (r: SchoolData)
    ensures r.Keys == m.Keys
    ensures forall k :: k in r ==> r[k] == Str(m[k])
  {
    map k | k in m :: Str(m[k])
  }
}
