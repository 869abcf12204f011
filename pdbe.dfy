/**
 * The PDBe (Protein Data Bank in Europe) search engine adapter: it builds the
 * request sent to the PDBe Solr search endpoint, and it turns the decoded list
 * of structure records into result entries. Records that are still in process
 * are dropped, obsolete ones are either dropped or marked, and every other
 * record gets a citation summary and a preview image.
 */
module Pdbe {
  import opened Wrappers
  import opened JsonValues
  import opened Selection
  import opened Text

  // ---------------------------------------------------------------------------
  // Configuration and constants
  // ---------------------------------------------------------------------------

  /** The engine's two flags, which the original keeps as module constants. */
  datatype Config = Config(hideObsolete: bool, hideUnpublished: bool)

  /** The values the original ships with. */
  const Defaults: Config := Config(false, true)

  /** Status codes of entries that are not yet released. */
  const UnpublishedCodes: seq<string> :=
    ["HPUB", "HOLD", "PROC", "WAIT", "AUTH", "AUCO", "REPL", "POLC", "REFI", "TRSF", "WDRN"]

  /** The status code of a superseded entry. */
  const ObsoleteCode: string := "OBS"

  const SolrUrl: string := "https://www.ebi.ac.uk/pdbe/search/pdb/select?"
  const EntryUrlPrefix: string := "https://www.ebi.ac.uk/pdbe/entry/pdb/"
  const PreviewUrlPrefix: string := "https://www.ebi.ac.uk/pdbe/static/entry/"
  const PreviewUrlSuffix: string := "_deposited_chain_front_image-200x200.png"

  /** The detail page of the entry whose identifier is `id`. */
  function EntryUrl(id: Value): (u: string)
    ensures |u| == |EntryUrlPrefix| + |Render(id)|
    ensures u[..|EntryUrlPrefix|] == EntryUrlPrefix && u[|EntryUrlPrefix|..] == Render(id)
  {
    EntryUrlPrefix + Render(id)
  }

  /** The preview image of the entry whose identifier is `id`. */
  function PreviewUrl(id: Value): (u: string)
    ensures |u| == |PreviewUrlPrefix| + |Render(id)| + |PreviewUrlSuffix|
    ensures u[..|PreviewUrlPrefix|] == PreviewUrlPrefix
    ensures u[|PreviewUrlPrefix|..|u| - |PreviewUrlSuffix|] == Render(id)
    ensures u[|u| - |PreviewUrlSuffix|..] == PreviewUrlSuffix
  {
    PreviewUrlPrefix + Render(id) + PreviewUrlSuffix
  }

  /** Both URL templates are one-to-one in the identifier they are filled with. */
  lemma UrlsDetermineIdentifier(a: Value, b: Value)
    ensures EntryUrl(a) == EntryUrl(b) <==> Render(a) == Render(b)
    ensures PreviewUrl(a) == PreviewUrl(b) <==> Render(a) == Render(b)
  {
    if EntryUrl(a) == EntryUrl(b) {
      assert Render(a) == EntryUrl(a)[|EntryUrlPrefix|..];
    }
    if PreviewUrl(a) == PreviewUrl(b) {
      var u := PreviewUrl(a);
      assert Render(a) == u[|PreviewUrlPrefix|..|u| - |PreviewUrlSuffix|];
    }
  }

  // ---------------------------------------------------------------------------
  // Status classification
  // ---------------------------------------------------------------------------

  /** The three ways a record is handled. */
  datatype Status = Unpublished | Obsolete | Published

  /** Classification by status code. The unpublished codes are tested first;
      every value that is neither one of them nor "OBS" (an unknown code, a
      number, a list) is handled as a published entry. */
  function Classify(status: Value): (c: Status)
    ensures c == Unpublished <==> status.Str? && status.s in UnpublishedCodes
    ensures c == Obsolete <==> status == Str(ObsoleteCode)
    ensures c == Published <==> !(status.Str? && (status.s in UnpublishedCodes || status.s == ObsoleteCode))
  {
    if status.Str? && status.s in UnpublishedCodes then Unpublished
    else if status == Str(ObsoleteCode) then Obsolete
    else Published
  }

  /** The unpublished set holds eleven distinct codes, none of them "OBS",
      so the order of the tests in `Classify` never hides an obsolete entry. */
  lemma UnpublishedCodesDistinct()
    ensures |UnpublishedCodes| == 11
    ensures forall i, j :: 0 <= i < j < |UnpublishedCodes| ==> UnpublishedCodes[i] != UnpublishedCodes[j]
    ensures ObsoleteCode !in UnpublishedCodes
  {
  }

  // ---------------------------------------------------------------------------
  // Obsolete entries
  // ---------------------------------------------------------------------------

  const ObsoleteMarker: string := "&nbsp;(OBSOLETE)"
  const SupersededMessage: string := "This entry has been superseded by"

  /** The title shown for an obsolete entry. */
  function ObsoleteTitle(title: Value): (t: string)
    ensures |t| == |Render(title)| + |ObsoleteMarker|
    ensures t[..|Render(title)|] == Render(title) && t[|Render(title)|..] == ObsoleteMarker
  {
    Render(title) + ObsoleteMarker
  }

  const NoticeHead: string :=
    "<span class=\"glyphicon glyphicon-exclamation-sign\"></span>&nbsp;<em>" + SupersededMessage + "                 <a href=\""
  const LinkClose: string := "\">"
  const NoticeTail: string := "</a></em>"

  /** The content shown for an obsolete entry: a notice linking to its successor. */
  function SupersededNotice(successor: Value): (n: string)
    ensures |NoticeHead| + |NoticeTail| <= |n|
    ensures n[..|NoticeHead|] == NoticeHead && n[|n| - |NoticeTail|..] == NoticeTail
  {
    NoticeHead + EntryUrl(successor) + LinkClose + Render(successor) + NoticeTail
  }

  /** The notice names the successor's detail page and, after it, the
      successor's identifier. */
  lemma SupersededNoticeMentions(successor: Value) returns (urlAt: nat, idAt: nat)
    ensures OccursAt(SupersededNotice(successor), EntryUrl(successor), urlAt)
    ensures OccursAt(SupersededNotice(successor), Render(successor), idAt)
    ensures urlAt + |EntryUrl(successor)| <= idAt
  {
    urlAt, idAt := OccursInParts(NoticeHead, EntryUrl(successor), LinkClose, Render(successor), NoticeTail);
  }

  // ---------------------------------------------------------------------------
  // Published entries: construct_body
  // ---------------------------------------------------------------------------

  const AuthorSeparator: string := "&nbsp;<span class=\"glyphicon glyphicon-user\"></span>&nbsp;"
  const JournalSeparator: string := "&nbsp;     <span class=\"glyphicon glyphicon-book\"></span>&nbsp;"
  const VolumeOpen: string := "&nbsp;<strong>"
  const VolumeClose: string := "</strong>&nbsp;"
  const YearSeparator: string := "     <span class=\"glyphicon glyphicon-calendar\"></span>&nbsp; "

  /** The citation template filled with its six fields; it opens with the
      title and closes with the year. */
  function CitationText(title: string, authors: string, journal: string, volume: string,
                        page: string, year: string): (t: string)
    ensures |title| <= |t| && t[..|title|] == title
    ensures |year| <= |t| && t[|t| - |year|..] == year
  {
    Fill([title, authors, journal, volume, page, year],
         [AuthorSeparator, JournalSeparator, VolumeOpen, VolumeClose, YearSeparator])
  }

  /** The six fields appear in the filled template, in order and without overlap. */
  lemma CitationTextFields(title: string, authors: string, journal: string, volume: string,
                           page: string, year: string) returns (pos: seq<nat>)
    ensures |pos| == 6
    ensures var text := CitationText(title, authors, journal, volume, page, year);
            var fields := [title, authors, journal, volume, page, year];
            (forall k :: 0 <= k < 6 ==> OccursAt(text, fields[k], pos[k]))
            && (forall k :: 0 <= k < 5 ==> pos[k] + |fields[k]| <= pos[k + 1])
  {
    var fields := [title, authors, journal, volume, page, year];
    var seps := [AuthorSeparator, JournalSeparator, VolumeOpen, VolumeClose, YearSeparator];
    pos := seq(6, k requires 0 <= k < 6 => FieldStart(fields, seps, k));
    forall k | 0 <= k < 6
      ensures OccursAt(CitationText(title, authors, journal, volume, page, year), fields[k], pos[k])
    {
      FillHoldsField(fields, seps, k);
    }
    forall k | 0 <= k < 5
      ensures pos[k] + |fields[k]| <= pos[k + 1]
    {
      FieldStartsIncrease(fields, seps, k);
    }
  }

  /** The first author of a record, `entry_author_list[0]`. */
  function FirstAuthor(rec: Record): (r: Result<string, Error>)
    ensures "entry_author_list" !in rec ==> r == Failure(KeyError("entry_author_list"))
    ensures "entry_author_list" in rec ==>
              var authors := rec["entry_author_list"];
              && (r.Success? <==> Truthy(authors) && !authors.Num?)
              && (r.Success? && authors.StrList? ==> r.value == authors.items[0])
              && (r.Failure? ==> !r.error.KeyError?)
  {
    var authors :- Lookup(rec, "entry_author_list");
    FirstItem(authors, "entry_author_list")
  }

  /** Filling the citation template (the `format` calls of the first `try`).
      The fields are read in the order the original evaluates the keyword
      arguments; a missing key fails with KeyError, an empty or non-list
      author list with IndexError or TypeError. */
  function Citation(rec: Record): (r: Result<string, Error>)
    ensures r.Success? <==> CitationKeysPresent(rec) && FirstAuthor(rec).Success?
    ensures r.Failure? ==> (r.error.KeyError? <==> !AuthorRaises(rec))
    ensures r.Failure? && AuthorRaises(rec) ==> r.error == FirstAuthor(rec).error
  {
    var journal :- Lookup(rec, "journal");
    var title :- Lookup(rec, "citation_title");
    var author :- FirstAuthor(rec);
    if Truthy(journal) then
      var volume :- Lookup(rec, "journal_volume");
      var page :- Lookup(rec, "journal_page");
      var year :- Lookup(rec, "citation_year");
      Success(CitationText(Render(title), author, Render(journal), Render(volume), Render(page), Render(year)))
    else
      var year :- Lookup(rec, "release_year");
      Success(CitationText(Render(title), author, "", "", "", Render(year)))
  }

  /** Every key the citation needs is present (which ones depends on the journal). */
  ghost predicate CitationKeysPresent(rec: Record) {
    && "journal" in rec && "citation_title" in rec && "entry_author_list" in rec
    && if Truthy(rec["journal"]) then
         "journal_volume" in rec && "journal_page" in rec && "citation_year" in rec
       else
         "release_year" in rec
  }

  /** Reading the first author raises something other than KeyError, which
      the `except (KeyError)` clause does not catch. */
  ghost predicate AuthorRaises(rec: Record) {
    && "journal" in rec && "citation_title" in rec && "entry_author_list" in rec
    && FirstItem(rec["entry_author_list"], "entry_author_list").Failure?
  }

  /** What construct_body returns: title, content and preview image. */
  datatype Body = Body(title: Value, content: Option<string>, imgSrc: Option<string>)

  /** construct_body: the title is read outside any `try`; the citation and
      the first preview URL share one `try` that maps KeyError to no content
      and no image; a second `try` then recomputes the image on its own. */
  function ConstructBody(rec: Record): (r: Result<Body, Error>)
    ensures r.Failure? <==> "title" !in rec || AuthorRaises(rec)
    ensures "title" !in rec ==> r == Failure(KeyError("title"))
    ensures r.Failure? && "title" in rec ==> r.error == FirstAuthor(rec).error && !r.error.KeyError?
    ensures r.Success? ==> r.value.title == rec["title"]
    ensures r.Success? ==> (r.value.content.Some? <==> CitationKeysPresent(rec) && "pdb_id" in rec)
    ensures r.Success? ==> r.value.imgSrc == if "pdb_id" in rec then Some(PreviewUrl(rec["pdb_id"])) else None
  {
    var title :- Lookup(rec, "title");
    var content :-
      match Citation(rec)
      case Failure(KeyError(_)) => Success(None)
      case Failure(e) => Failure(e)
      case Success(c) => Success(if "pdb_id" in rec then Some(c) else None);
    var imgSrc := if "pdb_id" in rec then Some(PreviewUrl(rec["pdb_id"])) else None;
    Success(Body(title, content, imgSrc))
  }

  /** With a non-empty journal and every citation key present, the content is
      the template filled with citation title, first author, journal, volume,
      page and citation year, and the image is the preview of the identifier. */
  lemma ConstructBodyWithJournal(rec: Record)
    requires "title" in rec && "pdb_id" in rec && CitationKeysPresent(rec) && Truthy(rec["journal"])
    requires FirstAuthor(rec).Success?
    ensures ConstructBody(rec) == Success(Body(rec["title"],
      Some(CitationText(Render(rec["citation_title"]), FirstAuthor(rec).value, Render(rec["journal"]),
                        Render(rec["journal_volume"]), Render(rec["journal_page"]), Render(rec["citation_year"]))),
      Some(PreviewUrl(rec["pdb_id"]))))
  {
  }

  /** With an empty journal, the journal, volume and page slots are empty and
      the year is the release year. */
  lemma ConstructBodyWithoutJournal(rec: Record)
    requires "title" in rec && "pdb_id" in rec && CitationKeysPresent(rec) && !Truthy(rec["journal"])
    requires FirstAuthor(rec).Success?
    ensures ConstructBody(rec) == Success(Body(rec["title"],
      Some(CitationText(Render(rec["citation_title"]), FirstAuthor(rec).value, "", "", "",
                        Render(rec["release_year"]))),
      Some(PreviewUrl(rec["pdb_id"]))))
  {
  }

  // ---------------------------------------------------------------------------
  // One record of the response
  // ---------------------------------------------------------------------------

  /** One entry of the result list. */
  datatype SearchResult = SearchResult(url: string, title: Value, content: Option<string>, imgSrc: Option<string>)

  /** A record is dropped without looking at any other field. */
  ghost predicate Skipped(rec: Record, cfg: Config) {
    && "status" in rec
    && (Classify(rec["status"]) == Unpublished || (Classify(rec["status"]) == Obsolete && cfg.hideObsolete))
  }

  /** A record makes the whole response fail: a key read outside any `try` is
      missing, or the author list raises. */
  ghost predicate Fatal(rec: Record, cfg: Config) {
    || "status" !in rec
    || (Classify(rec["status"]) == Obsolete && !cfg.hideObsolete
        && ("title" !in rec || "superseded_by" !in rec || "pdb_id" !in rec))
    || (Classify(rec["status"]) == Published
        && ("title" !in rec || AuthorRaises(rec) || "pdb_id" !in rec))
  }

  /** The body of the loop in `response` for one record: no entry, one entry,
      or the exception that ends the call. */
  function NormaliseRecord(rec: Record, cfg: Config): (r: Result<Option<SearchResult>, Error>)
    ensures r.Success? && r.value.Some? ==> "pdb_id" in rec && r.value.value.url == EntryUrl(rec["pdb_id"])
  {
    var status :- Lookup(rec, "status");
    match Classify(status)
    case Unpublished => Success(None)
    case Obsolete =>
      if cfg.hideObsolete then Success(None)
      else
        var title :- Lookup(rec, "title");
        var successor :- Lookup(rec, "superseded_by");
        var id :- Lookup(rec, "pdb_id");
        Success(Some(SearchResult(EntryUrl(id), Str(ObsoleteTitle(title)), Some(SupersededNotice(successor)), None)))
    case Published =>
      var body :- ConstructBody(rec);
      var id :- Lookup(rec, "pdb_id");
      Success(Some(SearchResult(EntryUrl(id), body.title, body.content, body.imgSrc)))
  }

  /** A record is skipped exactly when its status says so, and it ends the
      whole call exactly when a key read outside any `try` is missing or the
      author list raises. */
  lemma NormaliseRecordCases(rec: Record, cfg: Config)
    ensures NormaliseRecord(rec, cfg) == Success(None) <==> Skipped(rec, cfg)
    ensures NormaliseRecord(rec, cfg).Failure? <==> Fatal(rec, cfg)
  {
  }

  /** Every record whose status is neither unpublished nor "OBS", an unknown
      code included, is the entry construct_body describes. */
  lemma PublishedUsesBody(rec: Record, cfg: Config)
    requires "status" in rec && Classify(rec["status"]) == Published
    requires ConstructBody(rec).Success? && "pdb_id" in rec
    ensures var b := ConstructBody(rec).value;
            NormaliseRecord(rec, cfg) == Success(Some(SearchResult(EntryUrl(rec["pdb_id"]), b.title, b.content, b.imgSrc)))
  {
  }

  /** A published record that lacks a citation key is still emitted, with its
      own title and URL and no content; its image is the preview of its
      identifier, because the second `try` recomputes it. */
  lemma PublishedMissingCitation(rec: Record, cfg: Config)
    requires "status" in rec && Classify(rec["status"]) == Published
    requires "title" in rec && "pdb_id" in rec
    requires !CitationKeysPresent(rec) && !AuthorRaises(rec)
    ensures NormaliseRecord(rec, cfg) ==
      Success(Some(SearchResult(EntryUrl(rec["pdb_id"]), rec["title"], None, Some(PreviewUrl(rec["pdb_id"])))))
  {
  }

  // ---------------------------------------------------------------------------
  // The whole response
  // ---------------------------------------------------------------------------

  /** `xs` followed by the results of `rest`, unless `rest` failed. */
  function Prepend(xs: seq<SearchResult>, rest: Result<seq<SearchResult>, Error>): Result<seq<SearchResult>, Error>
  {
    match rest
    case Success(ys) => Success(xs + ys)
    case Failure(e) => Failure(e)
  }

  lemma PrependNothing(rest: Result<seq<SearchResult>, Error>)
    ensures Prepend([], rest) == rest
  {
    if rest.Success? {
      assert [] + rest.value == rest.value;
    }
  }

  /** The specification of `response`: the records are handled in order, and
      the first one that raises ends the call with its exception. */
  function Normalise(docs: seq<Record>, cfg: Config): (r: Result<seq<SearchResult>, Error>)
    ensures r.Success? ==> |r.value| <= |docs|
    ensures r.Success? ==> forall k :: 0 <= k < |r.value| ==>
              |EntryUrlPrefix| <= |r.value[k].url| && r.value[k].url[..|EntryUrlPrefix|] == EntryUrlPrefix
    decreases |docs|
  {
    if docs == [] then Success([])
    else
      var first :- NormaliseRecord(docs[0], cfg);
      Prepend(Emitted(first), Normalise(docs[1..], cfg))
  }

  /** The body of the `for` loop of `response` for one record: the skip flag
      is set, or title, content and image are computed; an entry is then made
      from the record's identifier unless the record is skipped. */
  method HandleRecord(rec: Record, cfg: Config) returns (r: Result<Option<SearchResult>, Error>)
    ensures r == NormaliseRecord(rec, cfg)
  {
    var skip := false;
    var title: Value, content: Option<string>, imgSrc: Option<string> := Str(""), None, None;
    if "status" !in rec {
      return Failure(KeyError("status"));
    }
    var status := rec["status"];
    if status.Str? && status.s in UnpublishedCodes {
      skip := true;
    } else if status == Str(ObsoleteCode) {
      if !cfg.hideObsolete {
        if "title" !in rec {
          return Failure(KeyError("title"));
        }
        title := Str(ObsoleteTitle(rec["title"]));
        if "superseded_by" !in rec {
          return Failure(KeyError("superseded_by"));
        }
        content := Some(SupersededNotice(rec["superseded_by"]));
        imgSrc := None;
      } else {
        skip := true;
      }
    } else {
      var body := ConstructBody(rec);
      if body.Failure? {
        return Failure(body.error);
      }
      title, content, imgSrc := body.value.title, body.value.content, body.value.imgSrc;
    }
    if skip {
      return Success(None);
    }
    if "pdb_id" !in rec {
      return Failure(KeyError("pdb_id"));
    }
    return Success(Some(SearchResult(EntryUrl(rec["pdb_id"]), title, content, imgSrc)));
  }

  /** response, from the decoded `docs` list onward: the records are handled
      in order and the entries appended to `results`; an exception raised for
      one record ends the whole call. */
  method Response(docs: seq<Record>, cfg: Config) returns (out: Result<seq<SearchResult>, Error>)
    ensures out == Normalise(docs, cfg)
  {
    var results: seq<SearchResult> := [];
    var i := 0;
    assert docs[i..] == docs;
    PrependNothing(Normalise(docs, cfg));
    while i < |docs|
      invariant 0 <= i <= |docs|
      invariant Normalise(docs, cfg) == Prepend(results, Normalise(docs[i..], cfg))
    {
      NormaliseStep(docs, i, cfg, results);
      var r := HandleRecord(docs[i], cfg);
      if r.Failure? {
        return Failure(r.error);
      }
      if r.value.Some? {
        results := results + [r.value.value];
      } else {
        assert results + [] == results;
      }
      i := i + 1;
    }
    assert docs[i..] == [] && results + [] == results;
    return Success(results);
  }

  /** One turn of the loop in `response`, stated on the specification. */
  lemma NormaliseStep(docs: seq<Record>, i: nat, cfg: Config, results: seq<SearchResult>)
    requires i < |docs|
    ensures Prepend(results, Normalise(docs[i..], cfg)) ==
      match NormaliseRecord(docs[i], cfg)
      case Failure(e) => Failure(e)
      case Success(o) => Prepend(results + Emitted(o), Normalise(docs[i + 1..], cfg))
  {
    assert docs[i..][0] == docs[i] && docs[i..][1..] == docs[i + 1..];
    var rest := Normalise(docs[i + 1..], cfg);
    if NormaliseRecord(docs[i], cfg).Success? && rest.Success? {
      var o := NormaliseRecord(docs[i], cfg).value;
      assert results + (Emitted(o) + rest.value) == (results + Emitted(o)) + rest.value;
    }
  }

  /** Handling a list in two parts: the first part's failure wins, otherwise
      the results are concatenated. */
  lemma {:induction false} NormaliseAppend(a: seq<Record>, b: seq<Record>, cfg: Config)
    ensures Normalise(a + b, cfg) ==
      match Normalise(a, cfg)
      case Success(xs) => Prepend(xs, Normalise(b, cfg))
      case Failure(e) => Failure(e)
    decreases |a|
  {
    if a == [] {
      assert a + b == b;
      if Normalise(b, cfg).Success? {
        assert [] + Normalise(b, cfg).value == Normalise(b, cfg).value;
      }
    } else {
      assert (a + b)[0] == a[0] && (a + b)[1..] == a[1..] + b;
      NormaliseAppend(a[1..], b, cfg);
      var first := NormaliseRecord(a[0], cfg);
      if first.Success? && Normalise(a[1..], cfg).Success? && Normalise(b, cfg).Success? {
        var xs, ys := Normalise(a[1..], cfg).value, Normalise(b, cfg).value;
        assert Emitted(first.value) + (xs + ys) == (Emitted(first.value) + xs) + ys;
      }
    }
  }

  /** The call succeeds exactly when no record raises. */
  lemma {:induction false} NormaliseSucceeds(docs: seq<Record>, cfg: Config)
    ensures Normalise(docs, cfg).Success? <==> forall i :: 0 <= i < |docs| ==> NormaliseRecord(docs[i], cfg).Success?
    decreases |docs|
  {
    if docs != [] {
      var tail := docs[1..];
      NormaliseSucceeds(tail, cfg);
      assert forall i :: 1 <= i < |docs| ==> docs[i] == tail[i - 1];
      if forall j :: 0 <= j < |tail| ==> NormaliseRecord(tail[j], cfg).Success? {
        forall i | 1 <= i < |docs|
          ensures NormaliseRecord(docs[i], cfg).Success?
        {
          assert NormaliseRecord(tail[i - 1], cfg).Success?;
        }
      }
    }
  }

  /** A failing call fails with the exception of the first record that raises. */
  lemma {:induction false} NormaliseFailure(docs: seq<Record>, cfg: Config) returns (i: nat)
    requires Normalise(docs, cfg).Failure?
    ensures i < |docs| && NormaliseRecord(docs[i], cfg) == Failure(Normalise(docs, cfg).error)
    ensures forall j :: 0 <= j < i ==> NormaliseRecord(docs[j], cfg).Success?
    decreases |docs|
  {
    if NormaliseRecord(docs[0], cfg).Failure? {
      i := 0;
    } else {
      var tail := docs[1..];
      var k := NormaliseFailure(tail, cfg);
      i := k + 1;
      forall j | 1 <= j < i
        ensures NormaliseRecord(docs[j], cfg).Success?
      {
        assert docs[j] == tail[j - 1];
      }
    }
  }

  /** `idx` lists, in increasing order, the positions of the records of
      `docs` that produce the entries `rs`, the k-th entry coming from record
      `idx[k]`; every other record is skipped. */
  ghost predicate Selects(docs: seq<Record>, cfg: Config, rs: seq<SearchResult>, idx: seq<nat>) {
    && |idx| == |rs|
    && (forall k :: 0 <= k < |idx| ==> idx[k] < |docs|)
    && (forall k, l :: 0 <= k < l < |idx| ==> idx[k] < idx[l])
    && (forall k :: 0 <= k < |idx| ==> NormaliseRecord(docs[idx[k]], cfg) == Success(Some(rs[k])))
    && (forall i :: 0 <= i < |docs| && i !in idx ==> Skipped(docs[i], cfg))
  }

  /** A successful response is the flattened list of the records' outcomes. */
  lemma {:induction false} NormaliseFlattens(docs: seq<Record>, cfg: Config) returns (os: seq<Option<SearchResult>>)
    ensures Normalise(docs, cfg).Success? ==>
              && |os| == |docs|
              && (forall i :: 0 <= i < |docs| ==> NormaliseRecord(docs[i], cfg) == Success(os[i]))
              && Normalise(docs, cfg).value == Flatten(os)
    decreases |docs|
  {
    if docs == [] {
      os := [];
    } else if Normalise(docs, cfg).Failure? {
      os := [];
    } else {
      var tail := NormaliseFlattens(docs[1..], cfg);
      os := [NormaliseRecord(docs[0], cfg).value] + tail;
      assert os[1..] == tail;
      forall i | 1 <= i < |docs|
        ensures NormaliseRecord(docs[i], cfg) == Success(os[i])
      {
        assert docs[i] == docs[1..][i - 1];
      }
    }
  }

  /** The results are the entries of the records that are not skipped, in
      input order, and each one's url is the entry URL of its own record's
      identifier. */
  lemma NormaliseSelects(docs: seq<Record>, cfg: Config) returns (idx: seq<nat>)
    ensures Normalise(docs, cfg).Success? ==> Selects(docs, cfg, Normalise(docs, cfg).value, idx)
    ensures Normalise(docs, cfg).Success? ==>
              forall k :: 0 <= k < |idx| ==>
                (idx[k] < |docs| && "pdb_id" in docs[idx[k]]
                 && Normalise(docs, cfg).value[k].url == EntryUrl(docs[idx[k]]["pdb_id"]))
  {
    if Normalise(docs, cfg).Failure? {
      return [];
    }
    var os := NormaliseFlattens(docs, cfg);
    idx := Present(os);
    var rs := Normalise(docs, cfg).value;
    forall k | 0 <= k < |idx|
      ensures idx[k] < |docs| && NormaliseRecord(docs[idx[k]], cfg) == Success(Some(rs[k]))
    {
      PresentAt(os, k);
    }
    forall k, l | 0 <= k < l < |idx|
      ensures idx[k] < idx[l]
    {
      PresentIncreasing(os, k, l);
    }
    forall i | 0 <= i < |docs| && i !in idx
      ensures Skipped(docs[i], cfg)
    {
      if os[i].Some? {
        var k := PresentComplete(os, i);
        assert false;
      }
    }
  }

  /** The records of `docs` that `drop` does not select, in order. */
  function Without(docs: seq<Record>, drop: Record -> bool): (r: seq<Record>)
    ensures |r| <= |docs|
    ensures forall i :: 0 <= i < |r| ==> r[i] in docs && !drop(r[i])
    decreases |docs|
  {
    if docs == [] then []
    else if drop(docs[0]) then Without(docs[1..], drop)
    else [docs[0]] + Without(docs[1..], drop)
  }

  /** Removing records that the handler skips changes neither the results
      nor the failure. */
  lemma {:induction false} SkippedRemovable(docs: seq<Record>, cfg: Config, drop: Record -> bool)
    requires forall i :: 0 <= i < |docs| && drop(docs[i]) ==> Skipped(docs[i], cfg)
    ensures Normalise(docs, cfg) == Normalise(Without(docs, drop), cfg)
    decreases |docs|
  {
    if docs != [] {
      assert forall i :: 1 <= i < |docs| ==> docs[i] == docs[1..][i - 1];
      SkippedRemovable(docs[1..], cfg, drop);
      if drop(docs[0]) {
        assert NormaliseRecord(docs[0], cfg) == Success(None);
        if Normalise(docs[1..], cfg).Success? {
          assert [] + Normalise(docs[1..], cfg).value == Normalise(docs[1..], cfg).value;
        }
      } else {
        var w := [docs[0]] + Without(docs[1..], drop);
        assert w[0] == docs[0] && w[1..] == Without(docs[1..], drop);
      }
    }
  }

  ghost predicate IsUnpublished(rec: Record) {
    "status" in rec && Classify(rec["status"]) == Unpublished
  }

  ghost predicate IsObsolete(rec: Record) {
    "status" in rec && Classify(rec["status"]) == Obsolete
  }

  /** Records with an unpublished status produce nothing: the response is the
      one for the list without them. */
  lemma UnpublishedProduceNothing(docs: seq<Record>, cfg: Config)
    ensures Normalise(docs, cfg) == Normalise(Without(docs, rec => IsUnpublished(rec)), cfg)
  {
    SkippedRemovable(docs, cfg, rec => IsUnpublished(rec));
  }

  /** With `hideObsolete`, obsolete records produce nothing either. */
  lemma HiddenObsoleteProduceNothing(docs: seq<Record>, cfg: Config)
    requires cfg.hideObsolete
    ensures Normalise(docs, cfg) == Normalise(Without(docs, rec => IsObsolete(rec)), cfg)
  {
    SkippedRemovable(docs, cfg, rec => IsObsolete(rec));
  }

  /** An obsolete record that is shown yields exactly one entry: the title
      with the "(OBSOLETE)" marker, a notice naming the successor and linking
      to its detail page, and no image. */
  lemma ObsoleteShown(rec: Record, cfg: Config)
    requires IsObsolete(rec) && !cfg.hideObsolete
    requires "title" in rec && "superseded_by" in rec && "pdb_id" in rec
    ensures Normalise([rec], cfg).Success? && |Normalise([rec], cfg).value| == 1
    ensures var r := Normalise([rec], cfg).value[0];
            && r.url == EntryUrl(rec["pdb_id"])
            && r.title == Str(Render(rec["title"]) + ObsoleteMarker)
            && r.content.Some?
            && Contains(r.content.value, Render(rec["superseded_by"]))
            && Contains(r.content.value, EntryUrl(rec["superseded_by"]))
            && r.imgSrc == None
  {
    var successor := rec["superseded_by"];
    var urlAt, idAt := SupersededNoticeMentions(successor);
    var r := SearchResult(EntryUrl(rec["pdb_id"]), Str(ObsoleteTitle(rec["title"])), Some(SupersededNotice(successor)), None);
    assert NormaliseRecord(rec, cfg) == Success(Some(r));
    assert [rec][1..] == [];
    assert Normalise([], cfg) == Success([]) && [r] + [] == [r];
    assert Normalise([rec], cfg) == Success([r]);
    assert OccursAt(r.content.value, Render(successor), idAt);
    assert OccursAt(r.content.value, EntryUrl(successor), urlAt);
  }

  /** A withdrawn entry produces nothing. */
  lemma WithdrawnEntryExample(cfg: Config)
    ensures Normalise([map["status" := Str("WDRN"), "pdb_id" := Str("1ABC")]], cfg) == Success([])
  {
    var rec := map["status" := Str("WDRN"), "pdb_id" := Str("1ABC")];
    assert UnpublishedCodes[10] == "WDRN";
    assert NormaliseRecord(rec, cfg) == Success(None);
    assert [rec][1..] == [];
    assert Normalise([rec], cfg) == Prepend([], Normalise([], cfg));
  }

  /** The `hideUnpublished` flag is never consulted. */
  lemma {:induction false} HideUnpublishedIgnored(docs: seq<Record>, hideObsolete: bool, u1: bool, u2: bool)
    ensures Normalise(docs, Config(hideObsolete, u1)) == Normalise(docs, Config(hideObsolete, u2))
    decreases |docs|
  {
    if docs != [] {
      HideUnpublishedIgnored(docs[1..], hideObsolete, u1, u2);
    }
  }

  // ---------------------------------------------------------------------------
  // The request
  // ---------------------------------------------------------------------------

  /** A value held in the request parameters. */
  datatype ParamValue = Plain(s: string) | Number(n: int) | Dict(entries: map<string, string>)

  /** The request parameters the host hands to the engine and then sends. */
  class RequestParams {
    var entries: map<string, ParamValue>

    constructor (initial: map<string, ParamValue>)
      ensures entries == initial
    {
      entries := initial;
    }
  }

  /** The parameters after a successful request: exactly the endpoint,
      method, client header and form body are set, everything else is as
      before. */
  function Prepared(query: string, userAgent: string, entries: map<string, ParamValue>): (p: map<string, ParamValue>)
    requires "headers" in entries && entries["headers"].Dict?
    ensures p.Keys == entries.Keys + {"url", "method", "data"}
    ensures p["url"] == Plain(SolrUrl) && p["method"] == Plain("POST")
    ensures p["data"] == Dict(map["q" := query, "wt" := "json"])
    ensures p["headers"].Dict? && p["headers"].entries.Keys == entries["headers"].entries.Keys + {"User-Agent"}
    ensures p["headers"].entries["User-Agent"] == userAgent
    ensures forall h :: h in entries["headers"].entries && h != "User-Agent" ==>
              p["headers"].entries[h] == entries["headers"].entries[h]
    ensures forall k :: k in entries && k !in {"url", "method", "headers", "data"} ==> p[k] == entries[k]
  {
    entries["url" := Plain(SolrUrl)]["method" := Plain("POST")]
      ["headers" := Dict(entries["headers"].entries["User-Agent" := userAgent])]
      ["data" := Dict(map["q" := query, "wt" := "json"])]
  }

  /** Preparing an already prepared request changes nothing. */
  lemma PreparedIdempotent(query: string, userAgent: string, entries: map<string, ParamValue>)
    requires "headers" in entries && entries["headers"].Dict?
    ensures var p := Prepared(query, userAgent, entries);
            "headers" in p && p["headers"].Dict? && Prepared(query, userAgent, p) == p
  {
    var p := Prepared(query, userAgent, entries);
    var q := Prepared(query, userAgent, p);
    assert q.Keys == p.Keys;
    assert q["headers"].entries == p["headers"].entries;
  }

  /** request: sets url and method, then the User-Agent entry of the headers
      dict (KeyError without a "headers" entry, TypeError when it is not a
      dict, in which case url and method are already set), then the body,
      and returns the same parameters object. */
  method Request(query: string, params: RequestParams, userAgent: string) returns (r: Result<RequestParams, Error>)
    modifies params
    ensures r.Success? <==> "headers" in old(params.entries) && old(params.entries)["headers"].Dict?
    ensures r.Success? ==> r.value == params && params.entries == Prepared(query, userAgent, old(params.entries))
    ensures r.Failure? ==> params.entries == old(params.entries)["url" := Plain(SolrUrl)]["method" := Plain("POST")]
    ensures r.Failure? ==> r.error == if "headers" in old(params.entries) then TypeError("headers") else KeyError("headers")
  {
    params.entries := params.entries["url" := Plain(SolrUrl)];
    params.entries := params.entries["method" := Plain("POST")];
    if "headers" !in params.entries {
      return Failure(KeyError("headers"));
    }
    var headers := params.entries["headers"];
    if !headers.Dict? {
      return Failure(TypeError("headers"));
    }
    params.entries := params.entries["headers" := Dict(headers.entries["User-Agent" := userAgent])];
    params.entries := params.entries["data" := Dict(map["q" := query, "wt" := "json"])];
    return Success(params);
  }
}
