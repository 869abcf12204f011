# PDBe search engine adapter, in Dafny

This project models the PDBe (Protein Data Bank in Europe) engine of the
searx metasearch engine, `searx/engines/pdbe.py`, and proves properties of it.
The engine has two jobs:

- **request**: it fills the outgoing request parameters. These are the PDBe
  Solr endpoint, `POST`, the searx User-Agent header and the form body
  `{'q': query, 'wt': 'json'}`.
- **response**: it turns the decoded list of structure records (`docs`)
  into result entries.
  - Records whose status is one of the eleven "not yet released" codes are
    dropped.
  - Obsolete (`OBS`) records are dropped, or shown with an `(OBSOLETE)` title
    and a notice linking to their successor.
  - Every other record goes through `construct_body`. That function builds a
    citation summary (title, first author, journal, volume, page, year) and a
    preview-image URL, and it falls back to no content when a citation key is
    missing.

Modules:

- `Wrappers`: `Option` and `Result`.
- `JsonValues`: decoded field values and the Python operations the engine
  applies to them. These are `d[key]` with KeyError, `x[0]` with
  IndexError/TypeError, truthiness, and `str()` as used by `str.format`.
- `Selection`: generic facts about keeping the present outcomes of a list, in
  order.
- `Text`: generic facts about where parts occur in a concatenated string.
- `Pdbe`: the engine.
  - The constants.
  - `Classify`.
  - `ConstructBody`.
  - `NormaliseRecord`, the loop body as a function.
  - `Normalise`, the specification of `response`, with its lemmas.
  - `HandleRecord` and `Response`, the imperative loop, proved equal to
    `Normalise`.
  - `RequestParams` and `Request`, an in-place update of the parameter map.

The two engine flags `hide_obsolete` and `hide_unpublished` are the fields of
`Config`. `Defaults` holds the values the file ships with.

### Behaviour worth noting

The model follows the code, including these points:

- **Empty author list.** The first `try` of `construct_body` catches only
  `KeyError` (line 67). When `journal` and `citation_title` are present, an
  empty `entry_author_list` raises `IndexError` at line 60 or 65. That
  exception escapes `construct_body` and ends the whole `response` call;
  content does not become `None`. An integer there raises `TypeError` the same
  way. When `journal` or `citation_title` is missing, the KeyError for it is
  raised first (lines 57, 59 and 64) and caught, so the record is still
  emitted with no content. `Citation`, `ConstructBody` and `Fatal` state this.
- **`hide_unpublished` is never read.** Unpublished records are always
  skipped. `HideUnpublishedIgnored` proves the result does not depend on the
  flag.
- **Key reads outside any `try` end the call.** Missing keys read outside any
  `try` raise `KeyError` out of `response`:
  - `status` (line 93);
  - `title` (line 47, or 98 for `OBS`);
  - `superseded_by` (line 99);
  - `pdb_id` (line 118).
- **`pdb_id` is also read inside a `try`.** The first `try` also reads
  `pdb_id` (line 66). A record with all citation keys but no `pdb_id`
  therefore loses its content, and then fails at line 118 anyway.

## Model

| member | source | states |
|---|---|---|
| Pdbe.EntryUrl | searx/engines/pdbe.py:27 | the entry URL is exactly the fixed prefix followed by `str(pdb_id)` |
| Pdbe.PreviewUrl | searx/engines/pdbe.py:29 | the preview URL is exactly the fixed prefix, `str(pdb_id)`, then the `_deposited_chain_front_image-200x200.png` suffix |
| Pdbe.UrlsDetermineIdentifier | searx/engines/pdbe.py:27-29 | two entry URLs (or two preview URLs) are equal iff the identifiers render equally; both templates are one-to-one |
| Pdbe.Classify | searx/engines/pdbe.py:93-114 | a status is unpublished iff it is a string among the eleven codes; it is obsolete iff it equals `OBS`; everything else, unknown codes and non-strings included, is handled as published |
| Pdbe.UnpublishedCodesDistinct | searx/engines/pdbe.py:23 | the unpublished list holds eleven distinct codes and not `OBS`, so the order of the tests at lines 93 and 95 hides nothing |
| Pdbe.ObsoleteTitle | searx/engines/pdbe.py:98 | an obsolete title is the original title followed by `&nbsp;(OBSOLETE)` |
| Pdbe.SupersededNoticeMentions | searx/engines/pdbe.py:99-107 | the obsolete notice contains the successor's entry URL and, after it, the successor's identifier |
| Pdbe.SupersededNotice | searx/engines/pdbe.py:103-107 | the obsolete notice opens with the exclamation-sign icon and the superseded message and closes the link and the emphasis |
| Pdbe.CitationText | searx/engines/pdbe.py:50-53 | the filled citation template opens with the citation title and ends with the year |
| Pdbe.CitationTextFields | searx/engines/pdbe.py:50-53 | the filled citation template contains title, authors, journal, volume, page and year, in that order and without overlap |
| Pdbe.FirstAuthor | searx/engines/pdbe.py:60 | `entry_author_list[0]`: KeyError when the key is missing; otherwise it succeeds iff the value is non-empty and not an integer, a list giving its first author, and a failure is never a KeyError |
| Pdbe.Citation | searx/engines/pdbe.py:56-65 | filling the template succeeds iff every citation key the journal branch needs is present and the first author can be read; a failure is a KeyError exactly when the author list does not raise, and otherwise it is the author list's own error |
| Pdbe.ConstructBody | searx/engines/pdbe.py:45-79 | fails iff `title` is missing (KeyError) or the author list raises (IndexError/TypeError, never a KeyError); the title is the record's; content is present iff every citation key and `pdb_id` is present; the image is the preview of `pdb_id` iff `pdb_id` is present |
| Pdbe.ConstructBodyWithJournal | searx/engines/pdbe.py:57-61 | with a truthy journal the content is the template filled with citation title, first author, journal, volume, page and citation year |
| Pdbe.ConstructBodyWithoutJournal | searx/engines/pdbe.py:62-65 | with a falsy journal the journal, volume and page slots are empty and the year is the release year |
| Pdbe.PublishedMissingCitation | searx/engines/pdbe.py:67-77 | a published record lacking a citation key (with no raising author list) is still emitted with no content and with the preview image of its `pdb_id` |
| Pdbe.NormaliseRecord | searx/engines/pdbe.py:116-122 | an emitted entry's url is the entry URL of the record's own `pdb_id` |
| Pdbe.NormaliseRecordCases | searx/engines/pdbe.py:90-122 | a record yields nothing iff its status is unpublished, or `OBS` with `hide_obsolete`; it aborts the call iff a key read outside any `try` is missing or the author list raises |
| Pdbe.PublishedUsesBody | searx/engines/pdbe.py:113-122 | every status that is neither unpublished nor `OBS` yields the entry built from `construct_body`'s title, content and image |
| Pdbe.Normalise | searx/engines/pdbe.py:84-124 | the specification of `response`: a successful result list is never longer than `docs` (at most one entry per record), and every url in it is under the entry-page prefix |
| Pdbe.HandleRecord | searx/engines/pdbe.py:89-122 | the loop body with its `skip_result` flag computes exactly `NormaliseRecord` |
| Pdbe.Response | searx/engines/pdbe.py:82-124 | the `for` loop appending to `results` computes exactly `Normalise`: records in order, the first exception ends the call |
| Pdbe.NormaliseStep | searx/engines/pdbe.py:88-122 | one loop turn: a failing record ends the call, otherwise its entry, if any, is appended |
| Pdbe.NormaliseAppend | searx/engines/pdbe.py:88 | handling `a + b` is handling `a`, then, unless it failed, appending the results for `b` |
| Pdbe.NormaliseSucceeds | searx/engines/pdbe.py:88-122 | the call succeeds iff no record raises |
| Pdbe.NormaliseFailure | searx/engines/pdbe.py:88-122 | a failing call fails with the exception of the first record that raises, all earlier ones succeeding |
| Pdbe.NormaliseFlattens | searx/engines/pdbe.py:116-122 | the results are the per-record outcomes with the skipped ones removed |
| Pdbe.NormaliseSelects | searx/engines/pdbe.py:88-122 | the k-th result comes from record `idx[k]`, the indices strictly increase (input order), every record not listed is skipped, and each result's url is the entry URL of its own record's `pdb_id` |
| Pdbe.SkippedRemovable | searx/engines/pdbe.py:93-116 | deleting records that are skipped changes neither the results nor the failure |
| Pdbe.UnpublishedProduceNothing | searx/engines/pdbe.py:93-94 | records with any of the eleven unpublished codes contribute nothing: the response equals the one for the list without them |
| Pdbe.HiddenObsoleteProduceNothing | searx/engines/pdbe.py:111-112 | with `hide_obsolete`, `OBS` records contribute nothing |
| Pdbe.ObsoleteShown | searx/engines/pdbe.py:95-110 | a shown `OBS` record yields exactly one entry: its title plus `&nbsp;(OBSOLETE)`, content containing the successor id and the successor's entry URL, no image |
| Pdbe.WithdrawnEntryExample | searx/engines/pdbe.py:23 | a single record with status `WDRN` yields an empty result list under either flag setting |
| Pdbe.HideUnpublishedIgnored | searx/engines/pdbe.py:20 | the response does not depend on `hide_unpublished` |
| Pdbe.RequestParams.constructor | searx/engines/pdbe.py:32 | the parameter map handed to `request` |
| Pdbe.Prepared | searx/engines/pdbe.py:34-41 | a prepared request has the Solr url, `POST`, the body `{'q': query, 'wt': 'json'}` and the User-Agent header; every other key and every other header is unchanged |
| Pdbe.PreparedIdempotent | searx/engines/pdbe.py:34-41 | preparing a prepared request again changes nothing |
| Pdbe.Request | searx/engines/pdbe.py:32-42 | succeeds iff `headers` is present and a dict, returning the same object updated to `Prepared`; otherwise url and method are already set and it fails with KeyError or TypeError on `headers` |
| JsonValues.Lookup | searx/engines/pdbe.py:47 | `rec[key]` succeeds iff the key is present, with its value, and raises KeyError on that key otherwise |
| JsonValues.Truthy | searx/engines/pdbe.py:57 | `if result['journal']:` is false exactly for the empty string, zero and the empty list |
| JsonValues.FirstItem | searx/engines/pdbe.py:60 | `v[0]` fails iff `v` is empty or an integer (IndexError resp. TypeError); a list gives its first item, a string its first character |
| JsonValues.Render | searx/engines/pdbe.py:58-61 | `str(v)`: a string renders as itself, an integer starts with `-` iff negative and its digits read back as its magnitude, a list is bracketed |
| JsonValues.DigitsRoundTrip | searx/engines/pdbe.py:61 | the decimal numeral written for a year reads back as that year |

## Left out

- JSON decoding (`loads(resp.text)['response']['docs']`, line 85): the model starts from the decoded list of records.
- Field values that are `null`, booleans, floats or nested objects: a value is a string, an integer or a list of strings.
- Render: lists are written as `['a', 'b']` without Python's `repr` escaping of quotes and backslashes inside the items.
- `gettext` (lines 98 and 102) is the identity: no translation.
- `searx_useragent()` (line 37) is a foreign call; its result is the `userAgent` parameter of `Request`.
- Request: the query is a text string, so `"{}".format(query)` is the query itself; a byte-string query is not modelled.
- Request: the headers dict is replaced by an updated copy, so other holders of the same Python dict object (aliasing) are not modelled.
- HTTP transport, the host search pipeline and `categories` (line 17) are not part of this model.
- NormaliseRecord: its own contract states only the url of an emitted entry; the skip and failure cases are in `NormaliseRecordCases`, and the entry's other fields in `ObsoleteShown`, `PublishedUsesBody` and `PublishedMissingCitation`.
