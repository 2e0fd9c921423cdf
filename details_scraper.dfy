/** src/scrapers/details_scraper.py: one details request per school code, inside one
    client session, and the mapping from each code fetched to its page.

    The requests of a batch go out one after the other here; the concurrency of the
    source is not part of this model. */
module DetailsScraper {
  import opened Wrappers
  import opened BaseScraper

  const DetailsUrl: string := "https://www.educacion.gob.es/centros/detalleCentro"

  /** The fields of the details form that do not depend on the school: no filter at all. */
  const FixedForm: map<string, string> :=
    map[
      "idComunidad" := "00", "idProvincia" := "00", "nivel" := "0", "naturaleza" := "0",
      "concertado" := "", "familia" := "0", "ensenanza" := "0", "modalidad" := "0",
      "tipoCentro" := "0"]

  /** `_build_payload`: the details form for one school code, `codCentro`. */
  function Payload(id: string): map<string, string> {
    FixedForm["codCentro" := id]
  }

  /** The request `scrape_school` sends for one code. */
  function DetailsRequest(id: string): Request {
    Request("POST", DetailsUrl, Payload(id))
  }

  /** `codCentro` carries the code, and every other field is the same whatever the code. */
  lemma PayloadFixed(id: string, other: string)
    ensures "codCentro" in Payload(id) && Payload(id)["codCentro"] == id
    ensures forall k :: k in Payload(id) && k != "codCentro" ==>
      k in Payload(other) && Payload(id)[k] == Payload(other)[k]
  {
  }

  /** The fields besides the code, in two groups. */
  const RegionFields: set<string> := {"idComunidad", "idProvincia", "nivel", "naturaleza", "concertado"}
  const FixedFields: set<string> := RegionFields + {"familia", "ensenanza", "modalidad", "tipoCentro"}

  /** The form has 10 fields: the code and 9 fixed ones. */
  lemma PayloadSize(id: string)
    ensures Payload(id).Keys == FixedFields + {"codCentro"} && |Payload(id)| == 10
  {
    FixedFormKeys();
    FixedFieldsCount();
    CodeNotFixed();
  }

  lemma FixedFormKeys()
    ensures FixedForm.Keys == FixedFields
  {
  }

  lemma CodeNotFixed()
    ensures "codCentro" !in FixedFields
  {
    assert "codCentro" !in RegionFields;
  }

  lemma RegionFieldsCount()
    ensures |RegionFields| == 5
  {
  }

  lemma FixedFieldsCount()
    ensures |FixedFields| == 9
  {
    RegionFieldsCount();
  }

  /** What `scrape_school` makes of a request: the body, or None for any exception. */
  function Fetched(t: Trace): Option<string> {
    if t.result.Success? then Some(t.result.value) else None
  }

  /** The page is None exactly when the request failed, and otherwise its body. */
  lemma FetchedIsBody(t: Trace)
    ensures Fetched(t).None? <==> t.result.Failure?
    ensures Fetched(t).Some? ==> Fetched(t).value == t.result.value
  {
  }

  /** A code the site does not know (a 404 on each attempt) and a server error (a 500 on
      each attempt) both give None, after every allowed attempt. */
  lemma ErrorStatusGivesNone(answers: nat -> Attempt, n: int, status: int)
    requires n >= 1 && status >= 400
    requires forall j :: 0 <= j < n ==> answers(j).Response? && answers(j).status == status
    ensures Fetched(Retry(answers, false, 0, n)) == None
    ensures Retry(answers, false, 0, n).attempts == n
  {
    AllAttemptsFail(answers, n);
  }

  /** An exception that is no ClientError gives None after the first attempt. */
  lemma OtherErrorGivesNone(answers: nat -> Attempt, n: int)
    requires n >= 1 && answers(0) == OtherFault
    ensures Fetched(Retry(answers, false, 0, n)) == None
    ensures Retry(answers, false, 0, n).attempts == 1
  {
  }

  /** The outcome of the details request of each code, in order. */
  function Outcomes(net: Network, config: ScrapingConfig, ids: seq<string>): (r: seq<Option<string>>)
    ensures |r| == |ids|
    decreases |ids|
  {
    if ids == [] then []
    else
      Outcomes(net, config, ids[..|ids| - 1])
      + [Fetched(Retry(net(DetailsRequest(ids[|ids| - 1])), false, 0, config.retryAttempts))]
  }

  /** The sleeps the requests for `ids` take, one request after the other. */
  function SleptFor(net: Network, config: ScrapingConfig, ids: seq<string>): seq<int>
    decreases |ids|
  {
    if ids == [] then []
    else
      var t := Retry(net(DetailsRequest(ids[|ids| - 1])), false, 0, config.retryAttempts);
      SleptFor(net, config, ids[..|ids| - 1]) + Sleeps(t.sleeps, config.retryDelay)
  }

  // ------------------------------------------------------------- the result mapping

  /** A Python dict from school code to page: its keys in insertion order, and its entries. */
  datatype Pages = Pages(order: seq<string>, entries: map<string, string>) {
    /** Each key is listed once, and the listed keys are the entries' keys. */
    ghost predicate Valid() {
      (forall i, j :: 0 <= i < j < |order| ==> order[i] != order[j])
      && (forall k :: k in entries <==> k in order)
    }
  }

  const NoPages := Pages([], map[])

  /** `d[k] = v`: a new key goes at the end, an existing key keeps its place. */
  function Put(d: Pages, k: string, v: string): Pages {
    if k in d.entries then Pages(d.order, d.entries[k := v])
    else Pages(d.order + [k], d.entries[k := v])
  }

  lemma PutValid(d: Pages, k: string, v: string)
    requires d.Valid()
    ensures Put(d, k, v).Valid()
    ensures forall x :: x in d.order ==> x in Put(d, k, v).order
  {
  }

  /** The dict comprehension of `process_batch`: each code paired with its outcome, kept
      when the outcome is a page. */
  function Successes(ids: seq<string>, results: seq<Option<string>>): Pages
    requires |ids| == |results|
    decreases |ids|
  {
    if ids == [] then NoPages
    else
      var n := |ids| - 1;
      var d := Successes(ids[..n], results[..n]);
      if results[n].Some? then Put(d, ids[n], results[n].value) else d
  }

  /** What the comprehension builds is a well-formed dict. */
  lemma {:induction false} SuccessesValid(ids: seq<string>, results: seq<Option<string>>)
    requires |ids| == |results|
    ensures Successes(ids, results).Valid()
    decreases |ids|
  {
    if ids != [] {
      var n := |ids| - 1;
      SuccessesValid(ids[..n], results[..n]);
      if results[n].Some? {
        PutValid(Successes(ids[..n], results[..n]), ids[n], results[n].value);
      }
    }
  }

  /** The keys are exactly the codes whose outcome is a page; codes that failed are absent. */
  lemma {:induction false} SuccessesKeys(ids: seq<string>, results: seq<Option<string>>, k: string)
    requires |ids| == |results|
    ensures k in Successes(ids, results).entries <==>
      exists i :: 0 <= i < |ids| && ids[i] == k && results[i].Some?
    decreases |ids|
  {
    if ids != [] {
      var n := |ids| - 1;
      SuccessesKeys(ids[..n], results[..n], k);
      if k in Successes(ids, results).entries && k !in Successes(ids[..n], results[..n]).entries {
        assert ids[n] == k && results[n].Some?;
      }
      if exists i :: 0 <= i < |ids| && ids[i] == k && results[i].Some? {
        var i :| 0 <= i < |ids| && ids[i] == k && results[i].Some?;
        if i < n {
          assert ids[..n][i] == k && results[..n][i].Some?;
        }
      }
    }
  }

  /** Each code maps to its page; for a code listed more than once, the last page wins. */
  lemma {:induction false} SuccessesLastWins(ids: seq<string>, results: seq<Option<string>>, i: nat)
    requires |ids| == |results| && i < |ids| && results[i].Some?
    requires forall j :: i < j < |ids| && ids[j] == ids[i] ==> results[j].None?
    ensures ids[i] in Successes(ids, results).entries
    ensures Successes(ids, results).entries[ids[i]] == results[i].value
    decreases |ids|
  {
    var n := |ids| - 1;
    if i < n {
      SuccessesLastWins(ids[..n], results[..n], i);
      assert ids[..n][i] == ids[i] && results[..n][i] == results[i];
      assert results[n].Some? ==> ids[n] != ids[i];
    }
  }

  /** There are no more entries than codes asked for. */
  lemma {:induction false} SuccessesBound(ids: seq<string>, results: seq<Option<string>>)
    requires |ids| == |results|
    ensures |Successes(ids, results).order| <= |ids|
    ensures forall k :: k in Successes(ids, results).order ==> k in ids
    decreases |ids|
  {
    if ids != [] {
      var n := |ids| - 1;
      SuccessesBound(ids[..n], results[..n]);
      assert forall k :: k in ids[..n] ==> k in ids;
    }
  }

  // ------------------------------------------------------------- the scraper methods

  /** `scrape_school`: the page, or None when the request raised. */
  method ScrapeSchool(scraper: Scraper, net: Network, id: string) returns (content: Option<string>)
    modifies scraper`slept
    ensures scraper.session == null ==> content == None && scraper.slept == old(scraper.slept)
    ensures scraper.session != null ==>
      var t := Retry(net(DetailsRequest(id)), scraper.session.closed, 0, scraper.config.retryAttempts);
      content == Fetched(t) && scraper.slept == old(scraper.slept) + Sleeps(t.sleeps, scraper.config.retryDelay)
  {
    var r, _ := scraper.MakeRequest(net, DetailsRequest(id));
    if r.Failure? {
      return None;
    }
    return Some(r.value);
  }

  /** `process_batch`: inside `async with self`, one request per code, then the pages. */
  method ProcessBatch(scraper: Scraper, net: Network, ids: seq<string>) returns (pages: Pages)
    modifies scraper
    ensures fresh(scraper.session) && scraper.session.closed
    ensures pages == Successes(ids, Outcomes(net, scraper.config, ids)) && pages.Valid()
    ensures scraper.slept == old(scraper.slept) + SleptFor(net, scraper.config, ids)
  {
    scraper.Enter();
    var results: seq<Option<string>> := [];
    for i := 0 to |ids|
      invariant fresh(scraper.session) && !scraper.session.closed
      invariant results == Outcomes(net, scraper.config, ids[..i])
      invariant scraper.slept == old(scraper.slept) + SleptFor(net, scraper.config, ids[..i])
    {
      var r := ScrapeSchool(scraper, net, ids[i]);
      assert ids[..i + 1][..i] == ids[..i];
      results := results + [r];
    }
    assert ids[..|ids|] == ids;
    pages := Successes(ids, results);
    SuccessesValid(ids, results);
    scraper.Exit();
  }

  /** `run`: a missing or empty list of codes is an empty batch. */
  method Run(scraper: Scraper, net: Network, ids: Option<seq<string>>) returns (pages: Pages)
    modifies scraper
    ensures var list := if ids.Some? then ids.value else [];
      && pages == Successes(list, Outcomes(net, scraper.config, list))
      && scraper.slept == old(scraper.slept) + SleptFor(net, scraper.config, list)
    ensures ids.None? || ids == Some([]) ==> pages == NoPages
    ensures pages.Valid()
    ensures fresh(scraper.session) && scraper.session.closed
  {
    var list := if ids.Some? then ids.value else [];
    pages := ProcessBatch(scraper, net, list);
  }
}
