# Harbor duplicate-tag resolver

A Dafny model of the decision logic of the Ansible module `harbor_lookup`.
Given the decoded tag listing of a Harbor repository and a source tag, the
module reports every tag that points at the same image manifest digest as
the source tag, plus the "alternative" tags with the source tag removed once.

The model has five modules:

- `Results`: `Option`, and `Result`, which carries either a value or the
  message of the exception Python would raise.
- `Records`: the `TagRecord` listing element (`name`, `digest`), and explicit
  recursive versions of the two pydash calls. `Filter` models `_.filter_`
  with a `{key: value}` match. `MapNames` models `_.map_` with the key
  `'name'`. The module also holds `FirstNamed`, a reference definition of
  "the first record with this name", and a subsequence relation.
- `PyList`: Python's `list.remove`. It removes the first equal element, or
  raises `ValueError` when there is none.
- `HarborLookup`: `find_registry_tags` after the JSON has been decoded. It has
  the `[src_tag]` fallback, the lookup of the first match's digest, and the
  digest filter. `ScanRegistryTags` is an independent two-loop version proved
  equal to it.
- `RunModule`: how `run_module` builds its result from the resolved tags. This
  covers `changed`, the echoed `src_tag`, `tags`, and `alternative_tags`.
  `DeriveResult` returns an `Outcome`: either `exit_json` with the result, or
  `fail_json` with the exception text. `Resolve` composes the resolver with
  `DeriveResult` and returns the `ModuleResult` directly, because
  `RemoveNeverRaises` rules out the failure.

Determinism holds by construction. The resolver and the result derivation are
pure functions of `(listing, src_tag)`, so two resolutions over the same
listing give identical `tags` and `alternative_tags`.

A well-formed Harbor listing holds each tag name at most once.
The code does not rely on this, and neither does the model. When several
records carry the source tag's name, the first one decides the digest.

## Model

| member | source | states |
|---|---|---|
| Records.Filter | harbor_lookup.py:116-119 | every record the match filter keeps has the requested property value, and the result is no longer than the listing |
| Records.FilterCounts | harbor_lookup.py:116-119 | the match filter keeps each matching record exactly as many times as the listing holds it, and keeps no other record |
| Records.FilterIsSubsequence | harbor_lookup.py:119 | the match filter does not re-order: its result is a subsequence of the listing |
| Records.MapNames | harbor_lookup.py:120 | the name map has the same length as its input, and position i holds the name of record i |
| Records.MapNamesKeepsSubsequence | harbor_lookup.py:120 | mapping to names keeps the subsequence relation between two record sequences |
| Records.FirstNamed | harbor_lookup.py:116-117 | a first record named n exists exactly when some record is named n; it is named n and no earlier record is |
| Records.NameFilterHeadIsFirstMatch | harbor_lookup.py:116-119 | the name filter is empty exactly when no record has the name; otherwise its element 0 (`digest[0]`) is the first record with that name |
| PyList.IndexOf | harbor_lookup.py:179 | the position `list.remove` targets holds the value, and the value does not occur before it |
| PyList.Remove | harbor_lookup.py:179 | `list.remove` succeeds exactly when the value occurs; it then deletes only its first occurrence, and otherwise raises `ValueError` |
| PyList.RemoveTakesOneCopy | harbor_lookup.py:179 | a successful removal shortens the list by one and takes away exactly one copy of the value, keeping every other element's multiplicity |
| PyList.RemoveKeepsElements | harbor_lookup.py:179 | after a successful removal, the remaining elements plus the removed value are exactly the elements of the original list, as sets |
| HarborLookup.SourceDigest | harbor_lookup.py:116-119 | a source digest exists exactly when some record carries the source tag, and it is the digest of the first such record |
| HarborLookup.FindRegistryTags | harbor_lookup.py:115-120 | the resolved tags are never empty and always contain the source tag, so the source tag always shares its own digest |
| HarborLookup.NoMatchFallback | harbor_lookup.py:116-118 | when no record is named after the source tag, the result is exactly `[src_tag]` |
| HarborLookup.DigestSoundAndComplete | harbor_lookup.py:116-120 | when the source tag is listed, a name is returned exactly when some record has that name and the first match's digest |
| HarborLookup.TagsAreDigestRestriction | harbor_lookup.py:119-120 | when the source tag is listed, the result is the names of a subsequence of the listing holding every record with the source digest (with its multiplicity) and nothing else; so it is an order-preserving subsequence of the listing's names |
| HarborLookup.ScanRegistryTags | harbor_lookup.py:115-120 | two explicit linear scans (first match, then digest filter) compute the same tags as the filter/map formulation |
| RunModule.DeriveResult | harbor_lookup.py:176-181 | on given tags: failure happens exactly when there are several tags and the source tag is not among them, with the `list.remove` message; otherwise `src_tag` and `tags` are echoed, `changed` holds exactly when there is more than one tag, and the alternatives are the tags minus the first source tag, or `[]` |
| RunModule.RemoveNeverRaises | harbor_lookup.py:176-179 | on tags produced by the resolver, the removal never raises, so the module exits normally |
| RunModule.Resolve | harbor_lookup.py:161-179 | the module result echoes the source tag, reports the resolved tags, and sets `changed` exactly when there is more than one tag; with a change, the alternatives are exactly what `list.remove` leaves (the tags with the first copy of the source tag cut out, the rest in order), one shorter and one copy of the source tag fewer; without one, they are empty; the result is the normal exit of `DeriveResult` on the resolved tags |
| RunModule.AlternativesCoverTags | harbor_lookup.py:176-179 | with several tags including the source tag, the module exits normally and a tag is among the tags exactly when it is an alternative or the source tag (the set form of alternatives plus source tag equals tags) |
| RunModule.NoMatchResult | harbor_lookup.py:116-176 | an unlisted source tag yields tags `[src_tag]` (lines 116-118), no alternatives (line 162) and no change (lines 139 and 176) |
| RunModule.SharedDigestExample | harbor_lookup.py:115-179 | for listing v1/sha:A, v2/sha:A, v3/sha:B and source tag v1, the result is changed, with tags [v1, v2] and alternatives [v2] |
| RunModule.LoneDigestExample | harbor_lookup.py:115-179 | on the same listing with source tag v3, the result is unchanged, with tags [v3] and no alternatives |

## Left out

- URL construction, request headers and the HTTP GET (harbor_lookup.py:100-111) are network I/O. The model takes the listing as an already-decoded sequence of records. Line 106 puts a hard-coded `Authorization: Basic` header, carrying a built-in credential (base64 of `admin:Harbor12345`), into every request; this is a security smell. When user credentials are given, line 109 also passes `HTTPBasicAuth`, which the HTTP library applies after the headers are prepared and which overwrites that `Authorization` header, so only one header is ever sent: the user's credentials when given, otherwise the built-in credential, unless the HTTP library finds a `~/.netrc` entry for the host, whose credentials then replace that header.
- `response.json()` and the commented-out status check (harbor_lookup.py:112-114) are left out. Any HTTP status is decoded as a success, and a failed decode raises an exception. Both happen before the modelled logic runs.
- pydash's behaviour on malformed JSON is not modelled: an error object instead of an array, or records missing `name` or `digest`. Every listing element is taken to be a record with both string fields.
- The Ansible plumbing is not modelled: the argument spec, the check-mode short-circuit, `exit_json` and `fail_json` as calls (they appear only as the `Outcome` alternatives), and exceptions raised by the HTTP call or the JSON decode.
- The choice between passing credentials or `None` (harbor_lookup.py:164-172) only affects the HTTP call, which is not modelled.
- Module metadata and documentation strings (harbor_lookup.py:1-91) describe the module; they are not behaviour.
