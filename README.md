# registry.parasks tools — a Dafny model

The registry publishes JSON-LD records under identifiers such as `E000004`.
Each record is sealed with a content hash: `contentHash` holds `sha256:<digest>`.
The digest is SHA-256 over the record's canonical bytes, which are
`json.dumps(..., sort_keys=True, separators=(",", ":"), ensure_ascii=False)` encoded as UTF-8.

The Python tools under `tools/` do five things:

- reseal a record;
- build the v1 API: `records.json`, `index.json`, `manifest.json` and one bundle per id;
- regenerate the bundles, the resolve objects, the index and the `latest-audit.json` pointer;
- append audit log entries;
- verify seals, from the working tree or against the published site.

`derive_wikipedia.py` contributes two pure helpers, `slugify` and `derive_tags`.

This project models those tools in Dafny and proves what they promise.

- **JSON values.** `JsonValue` holds the values `json.loads` returns. Objects are member lists in insertion order, and numbers are integers. It also models the dict operations the tools use, and `Equiv`: equality up to member order at every depth, with scalars compared by kind and value.
- **Encoder.** `JsonText` models `json.dumps` in the four styles the tools call it with. This includes string escaping as section 7 of RFC 8259 describes, as Python writes it. `Canon` gives the canonical bytes.
- **Sealing.** SHA-256 is a parameter `H`, so every theorem holds for any hash function. `Sealing` keeps the three rules the tools use apart:
  - the placeholder token `sha256:REPLACED_AT_RUNTIME`;
  - the bare token `sha256:`;
  - no neutralisation at all.
- **Working tree.** `Files.Store` is a class whose `files` map (path to `Doc`) is updated by its writing methods. A `Doc` is either a file as found (its text and what `json.load` makes of it) or a value the tools dumped in a given style.
- **The site.** The served site is a `map<string, Doc>` parameter.
- **One module per tool.** Each script has a module with a `Run` method or function. Its contract gives the exit status, the printed lines and the new tree for every input, including each error path.
- **Exit statuses.** An uncaught exception, and `SystemExit("message")`, end the process with status 1. A `main` that returns None ends it with status 0.

Two points where the scripts' behaviour is easy to misread:

- **Exit statuses.** The scripts do not share one convention:
  - `reg_reseal.py` and `hash_probe.py` exit 2 on a wrong argument count.
  - `reg_reseal.py` also exits 2 on a missing record file.
  - `gen_api_v1_bundles.py`, `audit_snapshot_manifest.py` and `build_api_v1_latest_audit.py` stop with `SystemExit("FAIL: ...")` on a missing artifact, which exits 1.
  - `reg_verify_manifest.py` exits 2 when a record mismatches.
  - `verify_id_v1.py` exits 1 on a mismatch.
  - `reg_verify_id.py` exits 0 after printing `FAIL`.
  - `issue_check.py` exits 2 on every failed check, a hash mismatch included.
- **Audit sequence past a million.** After run 999999 the next pointer is `/audit/logs/1000000.json`. The six-digit pattern of `next_seq` does not match it, so the run after that starts again at `000001` and overwrites `audit/logs/000001.json`. `Audit.NextSeqMillion` and `Audit.NextSeqAfterMillion` state the two steps.
- **Manifest verification.** The comments in `reg_verify_manifest.py` describe the placeholder rule. The code hashes the served record as it is (line 35). The model follows the code, and `VerifyManifest.PlaceholderSealMatches` states when the two agree.

## Model

| member | source | states |
|---|---|---|
| JsonValue.Get | tools/reg_verify_manifest.py:26 | `d.get(k)` is None exactly when `k` is absent, and otherwise a value stored under `k` |
| JsonValue.GetOr | tools/issue_check.py:30 | `d.get(k, default)` is the stored value when `k` is present and the default otherwise |
| JsonValue.StrMember | tools/reg_verify_manifest.py:30-31 | `meta[k]` used as a string is defined exactly when `meta` is an object holding a string under `k` |
| JsonValue.Put | tools/reg_reseal.py:9 | `d[k] = v` leaves `v` under `k` and every other key untouched; it overwrites in place or appends; distinct keys stay distinct |
| JsonValue.Pop | tools/hash_probe.py:36 | `d.pop(k, None)` removes `k` and leaves every other key untouched |
| JsonValue.FromPairs | tools/build_api_v1.py:64 | a dict filled pair by pair has distinct keys, exactly the keys given |
| JsonValue.FromPairsDistinct | tools/build_api_v1.py:64 | with distinct keys, filling a dict keeps exactly the pairs in order |
| JsonValue.PutExisting | tools/build_api_v1.py:72 | assigning the value a key already holds changes nothing |
| JsonValue.PopValid | tools/hash_probe.py:35-36 | removing a key from a loaded object gives an object with distinct keys at every depth |
| JsonValue.PutValid | tools/reg_reseal.py:8-9 | assigning a valid value keeps the object valid |
| JsonValue.SameEntriesEquiv | tools/reg_reseal.py:8-9 | two dicts holding equivalent values under every key are equivalent (equal up to member order) whatever their insertion order |
| JsonValue.PutEquiv | tools/reg_reseal.py:9 | assigning the same key and value in two equivalent dicts keeps them equivalent |
| JsonValue.EquivReflexive | tools/reg_reseal.py:10 | every loaded value is equivalent to itself |
| JsonText.EscapeChar | tools/reg_reseal.py:10 | an escaped character is printable (and ASCII under `ensure_ascii`); a plain character is written as itself |
| JsonText.EscapeString | tools/reg_reseal.py:10 | an escaped string has no control characters, and only ASCII under `ensure_ascii`; a string of plain characters is written as it is |
| JsonText.Quote | tools/reg_reseal.py:10 | a string literal is the escaped text between double quotes; a plain string is quoted as it is |
| JsonText.HexDigit | tools/gen_api_v1_index.py:26 | a hex digit character whose value is the number given |
| JsonText.Hex4 | tools/gen_api_v1_index.py:26 | a `\uXXXX` escape carries four lower-case hex digits whose value is the code unit |
| JsonText.Utf8Char | tools/reg_reseal.py:11 | the shortest UTF-8 form: one to four bytes by code point range, a lead byte announcing the length, continuation bytes `10xxxxxx`, and bytes that decode back to the code point |
| JsonText.Utf8 | tools/reg_reseal.py:11 | the encoding is at least as long as the text; ASCII text is encoded byte for byte |
| JsonText.Utf8Concat | tools/reg_reseal.py:11 | encoding works piece by piece: `(s + t).encode() == s.encode() + t.encode()` |
| JsonText.Utf8NoControl | tools/reg_reseal.py:10-11 | text without control characters encodes to bytes without control bytes |
| JsonText.EscapeStringConcat | tools/reg_reseal.py:10 | escaping works piece by piece |
| JsonText.EscapeStringChar | tools/reg_reseal.py:10 | a one-character string is escaped as that character is |
| JsonText.QuoteFits | tools/reg_reseal.py:10 | a string literal has no control character, and only ASCII under `ensure_ascii` |
| JsonText.Bracket | tools/gen_api_v1_index.py:26 | a list or object opens and closes with its bracket, in either layout |
| JsonText.JoinFits | tools/reg_reseal.py:10 | joining items without control characters (or non-ASCII ones) with such a separator adds none |
| JsonText.BracketFits | tools/gen_api_v1_index.py:26 | the indented layout adds only line breaks and spaces; the compact one adds nothing beyond brackets and commas |
| JsonText.Dumps | tools/reg_reseal.py:10 | `json.dumps` output is never empty; the first character tells a string, a list and an object apart, and each ends with its closing character; compact output has no control character or line break, and `ensure_ascii` output only ASCII |
| JsonText.DumpsArray | tools/gen_api_v1_index.py:26 | a non-empty list is written between `[` and `]`, in the style's character range |
| JsonText.DumpsObject | tools/gen_api_v1_index.py:26 | a non-empty object is written between `{` and `}`, in the style's character range, sorted or not |
| JsonText.Canon | tools/reg_reseal.py:10-11 | the canonical bytes are non-empty, hold no control byte (so no line break), and start with `{` exactly for an object and `[` exactly for a list |
| JsonText.DumpsEquiv | tools/hash_probe.py:17-19 | with `sort_keys=True` the text of two values equal up to member order is the same, at any depth and in any layout |
| JsonText.CanonEquiv | tools/reg_reseal.py:10-11 | the canonical bytes do not depend on member order at any depth |
| Sorting.SortBy | tools/reg_verify_manifest.py:29 | `sorted(items)` is an ordered permutation, strictly ordered when the keys are distinct |
| Sorting.SortStrings | tools/build_api_v1.py:34 | `sorted(strings)` is an ordered permutation, strictly ordered without duplicates |
| Sorting.StrictlySortedUnique | tools/build_api_v1.py:34 | two strictly ordered sequences with the same elements are equal, so the sorted listing is unique |
| Sorting.SortByElements | tools/gen_api_v1_bundles.py:35 | sorting keeps exactly the elements it was given |
| Sorting.SortByUnique | tools/gen_api_v1_bundles.py:35 | sorting by distinct keys depends only on which elements there are |
| Sorting.InsertSorted | tools/reg_verify_manifest.py:29 | inserting into an ordered sequence keeps it ordered |
| Sorting.InsertStrict | tools/reg_verify_manifest.py:29 | inserting a new key into a strictly ordered sequence keeps it strictly ordered |
| Text.LessIrreflexive | tools/build_api_v1.py:34 | string `<` is irreflexive |
| Text.LessTransitive | tools/build_api_v1.py:34 | string `<` is transitive |
| Text.LessTotal | tools/build_api_v1.py:34 | two different strings are ordered one way or the other |
| Text.LessAsymmetric | tools/build_api_v1.py:34 | string `<` is asymmetric |
| Text.IsSpaceAscii | tools/reg_verify_manifest.py:30 | among ASCII characters, `isspace()` holds exactly for space, tab, line feed, vertical tab, form feed, carriage return and U+001C..U+001F; no digit or ASCII letter is whitespace |
| Text.Strip | tools/reg_verify_manifest.py:30 | `strip()` returns the slice of the string between its leading and its trailing whitespace, with no whitespace at either end |
| Text.SpacesFrom | tools/reg_verify_manifest.py:30 | the leading run of whitespace is measured exactly: whitespace up to the returned index, and a non-space (or the end) there |
| Text.SpacesBefore | tools/reg_verify_manifest.py:30 | the trailing run of whitespace is measured exactly: whitespace from the returned index on, and a non-space (or the lower bound) before it |
| Text.StripStripped | tools/verify_id_v1.py:22 | a string with no whitespace at either end is left alone |
| Text.Find | tools/reg_verify_manifest.py:30 | the first occurrence of the separator, or none anywhere |
| Text.AfterFirst | tools/reg_verify_manifest.py:30 | `s.split(sep, 1)[-1]` is all of `s` without `sep`, else what follows its first occurrence |
| Text.AfterFirstOfPrefixed | tools/issue_check.py:34 | on a string starting with `sep`, `split(sep, 1)[1]` is the rest after it |
| Text.StartsWithFind | tools/issue_check.py:31 | `s.startswith(p)` exactly when `s.find(p) == 0` |
| Text.Replace | tools/hash_probe.py:27 | `replace` keeps the length when the replacement is as long as the target, and never lengthens the string when it is shorter; its value is given by `Text.ReplaceFirst` |
| Text.ReplaceAbsent | tools/hash_probe.py:27 | `replace` changes nothing in a string without the target's first character |
| Text.ReplaceFirst | tools/hash_probe.py:27 | `replace` through `find`: no occurrence changes nothing; otherwise the text before the first occurrence is kept, that occurrence becomes the replacement, and the rest is replaced in turn |
| Text.UpperChar | tools/issue_check.py:20 | `upper()` of a character: one to three characters and no ASCII lower case; an ASCII letter shifts by 32; exactly the ASCII letters, dotless i and long s give one ASCII capital; `ß`, the ligatures and the other expanding characters give an ASCII capital first or second; digits and line breaks appear only as themselves; every other character is kept |
| Text.Upper | tools/issue_check.py:20-23 | `upper()` is never shorter than its input and leaves no ASCII lower case |
| Text.UpperConcat | tools/issue_check.py:20 | upper-casing works piece by piece |
| Text.UpperOneForOne | tools/issue_check.py:20 | where no character expands, upper-casing maps the characters one for one |
| Text.UpperPlain | tools/issue_check.py:20 | digits and line breaks are their own upper case |
| Text.UpperOfPlain | tools/issue_check.py:20 | only digits and line breaks upper-case to digits and line breaks |
| Text.LowerChar | tools/derive_wikipedia.py:40 | `lower()` of a character: ASCII capitals shift by 32, the Kelvin sign becomes `k`, capital I with dot above becomes `i` and a combining dot (the only two-character result), and every other character is kept |
| Text.Lower | tools/derive_wikipedia.py:40 | `lower()` is never shorter than its input and leaves no ASCII capital |
| Text.LowerConcat | tools/derive_wikipedia.py:40 | lower-casing works piece by piece |
| Text.LowerOneForOne | tools/derive_wikipedia.py:40 | without a capital I with dot above, lower-casing maps the characters one for one |
| Text.LowerFixed | tools/derive_wikipedia.py:40 | `lower()` leaves a string without capitals alone |
| Text.RunLength | tools/derive_wikipedia.py:48 | the run at the start of a string is maximal |
| Text.Filter | tools/derive_wikipedia.py:48 | the class characters of a string, in order |
| Text.FilterRun | tools/derive_wikipedia.py:48 | a leading run of class characters survives filtering as it is |
| Text.FilterSkip | tools/derive_wikipedia.py:48 | a leading run of other characters disappears |
| Text.Runs | tools/derive_wikipedia.py:48 | `re.findall` of a class gives non-empty runs of class characters taken from the string, which together are all its class characters in order |
| Text.Pieces | tools/derive_wikipedia.py:56 | cutting at every character outside the class gives at least one piece |
| Text.PiecesAfterRun | tools/derive_wikipedia.py:48 | the first piece is the leading run, the rest are the pieces after the character ending it |
| Text.RunsArePieces | tools/derive_wikipedia.py:48 | the runs are exactly the non-empty pieces: `findall` of a class is `split` at its complement without the empty strings |
| Text.SubRuns | tools/derive_wikipedia.py:41 | `re.sub` of a class's complement leaves class characters and single replacements, never two in a row, keeps a leading class character, and keeps every class character in order |
| Text.SubRunsEnds | tools/derive_wikipedia.py:41 | the result starts with the string's first character when that is a class character and with the replacement otherwise, and ends the same way with its last character |
| Text.SubRunsRuns | tools/derive_wikipedia.py:41 | with a replacement outside the class, the runs of class characters are the same before and after: every replacement stands exactly where a run outside the class stood, so the result is fixed by the input |
| Text.SubRunsFixed | tools/derive_wikipedia.py:41 | a string already in that shape is left alone |
| Text.DigitChar | tools/audit_snapshot_manifest.py:22 | a decimal digit character and its value |
| Text.DecimalText | tools/audit_snapshot_manifest.py:22 | `str(n)` is a non-empty run of digits, starting with `0` only for zero |
| Text.IntText | tools/gen_api_v1_index.py:27 | `str(i)` is non-empty, starts with `-` exactly for a negative number, and is otherwise digits |
| Text.IntTextValue | tools/gen_api_v1_index.py:27 | `int(str(i)) == i`, sign included |
| Text.DecimalTextValue | tools/audit_snapshot_manifest.py:21 | `int(str(n)) == n` |
| Text.DecimalTextLongEnough | tools/audit_snapshot_manifest.py:22 | `n >= 10^k` has more than `k` digits |
| Text.DecimalTextLength | tools/audit_snapshot_manifest.py:22 | `n < 10^k` has at most `k` digits |
| Text.LeadingZerosValue | tools/audit_snapshot_manifest.py:21 | leading zeros do not change `int()` |
| Text.ZerosValue | tools/audit_snapshot_manifest.py:21 | a run of zeros reads as 0 |
| Text.Pad6 | tools/audit_snapshot_manifest.py:22 | `f"{n:06d}"` is all digits |
| Text.Pad6Value | tools/audit_snapshot_manifest.py:21-22 | `int(f"{n:06d}") == n`; six characters below a million; the plain decimal text from a million up |
| Basics.Map | tools/reg_verify_manifest.py:29-35 | the checks of the records, one per record |
| Basics.MapAt | tools/reg_verify_manifest.py:29-44 | its `i`-th element is `f` of the `i`-th input |
| Basics.TryMap | tools/build_api_v1.py:68-77 | a loop that may raise on any element gives, when it does not, one result per element |
| Basics.TryMapDefined | tools/build_api_v1.py:68-77 | the loop raises exactly when some element's step raises |
| Basics.TryMapAt | tools/build_api_v1.py:68-77 | the `i`-th result is the `i`-th element's step |
| Routes.BundleFileInjective | tools/build_api_v1.py:88 | different ids get different bundle files |
| Files.Fetch | tools/reg_verify_manifest.py:6-10 | a fetch yields a value exactly when the path is served as JSON, and then it is that JSON |
| Files.WriteAll | tools/gen_api_v1_resolve.py:10-22 | writes add exactly their paths and leave every other file as it was |
| Files.WriteAllLast | tools/gen_api_v1_resolve.py:10-22 | the last write to a path is what the path holds afterwards |
| Files.WriteAllStep | tools/gen_api_v1_resolve.py:20-22 | one more write extends the writes so far |
| Files.StemSuffix | tools/gen_api_v1_index.py:15 | `p.stem` followed by `.jsonld` is the name |
| Files.IdListingUnique | tools/build_api_v1.py:34 | a tree has one sorted id listing |
| Files.IdListingDistinct | tools/build_api_v1.py:34 | the sorted id listing names each id once |
| Files.Store.WriteJson | tools/build_api_v1.py:19-25 | `write_json` replaces one file with the value dumped in the given style and nothing else |
| Files.Store.Glob | tools/gen_api_v1_index.py:12 | the glob lists each matching name once, exactly the names present, hidden ones only for pathlib |
| Files.ListNames | tools/gen_api_v1_index.py:12 | `sorted(glob(...))` is the strictly ordered listing of the matching names |
| Files.ListIds | tools/build_api_v1.py:34 | the ids are the data files' stems, each once, ascending |
| Sealing.SealedBytes | tools/reg_reseal.py:7-11 | the bytes hashed under a token rule are a canonical object: they start with `{` and hold no control byte |
| Sealing.SealOfValid | tools/reg_reseal.py:22-23 | the token-rule digest of a record is the digest of that record already carrying the token |
| Sealing.PlainDigestOfSealed | tools/reg_verify_manifest.py:35 | hashing a record as it is gives the token-rule digest for the token it carries |
| Sealing.Expected | tools/reg_verify_manifest.py:30 | the expected digest is no longer than the stored seal and has no whitespace at either end; without `sha256:` it is the stripped seal |
| Sealing.Sealed | tools/reg_reseal.py:24 | `f"sha256:{h}"` starts with the prefix and holds the digest after it |
| Sealing.DigestStripped | tools/reg_verify_manifest.py:30 | `strip()` leaves a hex digest alone |
| Sealing.ExpectedOfSealed | tools/reg_verify_manifest.py:30 | reading a stored seal back yields the digest that was written |
| Sealing.SealIgnoresContentHash | tools/reg_reseal.py:8-10 | the token rule does not see the record's `contentHash` or member order: records agreeing on every other key give the same bytes |
| Sealing.SealEquiv | tools/reg_reseal.py:10 | records equal up to member order get the same sealed bytes |
| Sealing.PlainMatchesTokenRule | tools/verify_id_v1.py:28-29 | hashing a record that carries the token gives its token-rule digest (the "if" half) |
| Reseal.Resealed | tools/reg_reseal.py:22-24 | after reseal, `contentHash` is `sha256:` + the placeholder-rule digest and every other key is unchanged |
| Reseal.ResealStable | tools/reg_reseal.py:23-24 | the digest of the resealed record is the digest it stores |
| Reseal.ResealIdempotent | tools/reg_reseal.py:23-24 | resealing a resealed record changes nothing |
| Reseal.ResealEquiv | tools/reg_reseal.py:10 | records differing only in member order get the same seal |
| Reseal.Run | tools/reg_reseal.py:16-33 | wrong argument count: 2 with the `USAGE:` line, nothing written; missing file: 2 with `FAIL: missing data/<id>.jsonld`, nothing written; non-object: 1, no line, nothing written; otherwise the file is rewritten with the resealed record and `OK: resealed <id> -> sha256:<digest>` printed |
| BuildApi.EnsureLeadingSlash | tools/build_api_v1.py:27-30 | empty stays empty; otherwise the result starts with `/`; a path with `/` is unchanged; at most a `/` is added |
| BuildApi.EnsureLeadingSlashIdempotent | tools/build_api_v1.py:27-30 | normalising twice is normalising once |
| BuildApi.LatestAudit | tools/build_api_v1.py:37-38 | raises exactly when the index is not an object or its `latest` is a truthy non-string; a falsy `latest` (or none) is passed through; a string `latest` becomes `ensure_leading_slash` of it |
| BuildApi.RecordEntry | tools/build_api_v1.py:46-51 | a `records.json` entry is a well-formed object of four members |
| BuildApi.RecordsList | tools/build_api_v1.py:44-51 | one entry per id, in order, each the id's entry |
| BuildApi.IndexRecords | tools/build_api_v1.py:64 | the map sends every id to `/data/{rid}.jsonld` and has no other key |
| BuildApi.FromPairsValue | tools/build_api_v1.py:64 | every value the dict keeps is one given for its key |
| BuildApi.LoadRecord | tools/build_api_v1.py:70 | a missing file loads as nothing; a record the tools dumped loads back as the members written; a loaded record is what `json.load` makes of the file |
| BuildApi.ManifestEntry | tools/build_api_v1.py:74-77 | a manifest entry is a well-formed object (no repeated key) |
| BuildApi.ManifestPairs | tools/build_api_v1.py:68-77 | when every record loads, the loop makes exactly one assignment per id |
| BuildApi.ManifestDefined | tools/build_api_v1.py:68-77 | the manifest loop raises exactly when some record does not load as an object |
| BuildApi.ManifestPairAt | tools/build_api_v1.py:70-77 | the `i`-th assignment stores the placeholder-rule seal of that id's record |
| BuildApi.ManifestEntries | tools/build_api_v1.py:68-77 | with distinct ids the manifest holds exactly the ids, in order, each with its data path and its record's placeholder-rule seal, whatever the record stores |
| BuildApi.SealPlaceholder | tools/build_api_v1.py:72-73 | the digest is the placeholder-rule seal of the record |
| BuildApi.ManifestAfterStep | tools/build_api_v1.py:69-77 | one more loaded record adds its assignment to the dict so far |
| BuildApi.ManifestFails | tools/build_api_v1.py:70 | one record that does not load makes the whole loop raise |
| BuildApi.BuildManifest | tools/build_api_v1.py:68-77 | the loop computes the manifest records, or raises |
| BuildApi.ManifestHashOf | tools/build_api_v1.py:87 | reading `manifest_recs[rid]["contentHash"]` gives the seal the loop stored |
| BuildApi.ManifestEntryHash | tools/build_api_v1.py:74-77 | a manifest entry holds `sha256:` + its digest under `contentHash` and the record's data path under `data` |
| BuildApi.BundleDoc | tools/build_api_v1.py:88-98 | a bundle is an object of nine distinct keys, well formed exactly when its `contentHash` and `latestAudit` are |
| BuildApi.BundleHash | tools/build_api_v1.py:86-95 | a bundle's `contentHash` is the value read from the manifest, never recomputed |
| BuildApi.BundleLatestAudit | tools/build_api_v1.py:97 | a bundle's `latestAudit` is the value handed to the bundle loop |
| BuildApi.BundlesCarryLatest | tools/build_api_v1.py:36-97 | every bundle the build writes carries `ensure_leading_slash` of the audit index's `latest` (a falsy non-string passed through) |
| BuildApi.ManifestAgreesWithReseal | tools/build_api_v1.py:72-73 | the manifest hash of a record is the `contentHash` `reg_reseal.py` would store for it |
| BuildApi.WriteBundles | tools/build_api_v1.py:86-98 | the bundle loop writes one bundle per id, in order |
| BuildApi.Run | tools/build_api_v1.py:32-100 | unusable audit index: 1, no line, nothing written; a record that does not load: 1, no line, after `records.json` and `index.json`; otherwise every output written, each manifest hash the record's seal, status 0 and the line `OK: built api/v1 (ids=N)` |
| Bundles.LatestField | tools/gen_api_v1_bundles.py:53-54 | bundles carry a `latestAudit` exactly when the file loaded as a non-empty object, and then its `latest` |
| Bundles.Bundle | tools/gen_api_v1_bundles.py:40-54 | a bundle has nine members, ten with `latestAudit`, which then comes last and holds the given value |
| Bundles.BundleCopies | tools/gen_api_v1_bundles.py:37-48 | a bundle copies `data` and `contentHash` verbatim from its manifest entry |
| Bundles.BundlePaths | tools/gen_api_v1_bundles.py:44-46 | a bundle's `id`, `resolver` and `page` come from the id |
| Bundles.BundleKeys | tools/gen_api_v1_bundles.py:40-50 | a bundle starts with its nine fixed members, in order |
| Bundles.FieldOf | tools/gen_api_v1_bundles.py:40-50 | each fixed member is found under its key |
| Bundles.BundleLatest | tools/gen_api_v1_bundles.py:53-54 | a bundle has `latestAudit` exactly when one is given, and then it is that value |
| Bundles.Processed | tools/gen_api_v1_bundles.py:35-37 | the loop gets as far as the first entry that is not an object |
| Bundles.BundleOuts | tools/gen_api_v1_bundles.py:56-57 | one bundle file per processed record |
| Bundles.StartOf | tools/gen_api_v1_bundles.py:22-35 | the manifest is missing exactly when the file is; a run that reaches the loop has records, in ascending id order |
| Bundles.ReadyItems | tools/gen_api_v1_bundles.py:28-35 | the loop walks a permutation of the records, in strictly ascending id order, and all of them when every entry is an object |
| Bundles.AllObjectsProcessed | tools/gen_api_v1_bundles.py:35-37 | when every record entry is an object the loop visits them all |
| Bundles.OneBundlePerRecord | tools/gen_api_v1_bundles.py:35-57 | every record's bundle file holds that record's bundle |
| Bundles.WriteBundles | tools/gen_api_v1_bundles.py:34-60 | the bundles written so far, the count equal to the number of records on success, status 1 at a non-object entry |
| Bundles.Run | tools/gen_api_v1_bundles.py:21-61 | missing manifest or empty records: message and status 1, nothing written; otherwise the bundle loop |
| Audit.SeqSuffix | tools/audit_snapshot_manifest.py:18 | a match captures exactly six digits, and the pointer ends in `/` + those digits + `.json`, possibly followed by one newline |
| Audit.NextSeq | tools/audit_snapshot_manifest.py:15-22 | a falsy or non-matching pointer gives `000001`; a truthy non-string raises; a matching pointer gives its number plus one, zero-padded to six digits |
| Audit.SeqSuffixOf | tools/audit_snapshot_manifest.py:18 | every pointer ending in `/` + six digits + `.json`, with any prefix and an optional final newline, matches and captures those digits |
| Audit.NextSeqSuccessor | tools/audit_snapshot_manifest.py:15-22 | for every pointer the pattern accepts with a number below a million, the next number is that one plus one, six digits wide |
| Audit.NextSeqMillion | tools/audit_snapshot_manifest.py:21-22 | after `999999` comes `1000000`, not truncated |
| Audit.NextSeqAfterMillion | tools/audit_snapshot_manifest.py:18-20 | a seven-digit pointer restarts the sequence at `000001`, so the next run rewrites the first log file |
| Audit.Entry | tools/audit_snapshot_manifest.py:45-52 | an audit entry is a well-formed object of six members |
| Audit.NextIndex | tools/audit_snapshot_manifest.py:41-65 | a run over an index raises exactly when it is not an object, its `latest` is a truthy non-string, or its `logs` is not a list; otherwise the new index has two members |
| Audit.PadAtMillion | tools/audit_snapshot_manifest.py:22 | `f"{n:06d}"` gives `999999` and then `1000000` |
| Audit.UpdatedIndex | tools/audit_snapshot_manifest.py:58-65 | the new index has the new `latest` and the old `logs` with it appended |
| Audit.NextIndexAppends | tools/audit_snapshot_manifest.py:59-65 | the old pointers stay, in order, and `latest` is the last of `logs` |
| Audit.NextIndexStep | tools/audit_snapshot_manifest.py:58-65 | one run over a written index appends the next pointer |
| Audit.Pointers | tools/audit_snapshot_manifest.py:58 | `n` pointers, the `i`-th (from 0) being `/audit/logs/` + `f"{i+1:06d}"` + `.json` |
| Audit.RunsFromEmpty | tools/audit_snapshot_manifest.py:36-65 | `n` runs from no index give `logs == [000001 … n]` and `latest` the last |
| Audit.Run | tools/audit_snapshot_manifest.py:30-71 | missing manifest: message, status 1, nothing written; unusable index: 1, nothing written; otherwise the entry and then the index written |
| VerifyManifest.Check | tools/reg_verify_manifest.py:30-37 | the check raises exactly when an entry or its data is unusable; otherwise it compares the stripped digest after the first `sha256:` with the hash of the data as served |
| VerifyManifest.BuiltEntryFields | tools/build_api_v1.py:74-77 | an entry the build writes holds the data path and the seal |
| VerifyManifest.PlaceholderSealMatches | tools/reg_verify_manifest.py:35-37 | a placeholder-rule seal matches data that still carries the placeholder |
| VerifyManifest.BuiltEntryMatches | tools/reg_verify_manifest.py:30-37 | every entry the build writes verifies against its record served with the placeholder |
| VerifyManifest.Records | tools/reg_verify_manifest.py:25-29 | the records the loop walks are in ascending id order and are a permutation of the manifest's records |
| VerifyManifest.VerdictLines | tools/reg_verify_manifest.py:37-44 | a raising check prints nothing, a match one line, a mismatch three |
| VerifyManifest.Report | tools/reg_verify_manifest.py:29-44 | at most three lines per record, exactly one per record when every record matches |
| VerifyManifest.Summary | tools/reg_verify_manifest.py:46 | the `\n` in the summary message prints an empty line before `SUMMARY: ok=...` |
| VerifyManifest.Verdicts | tools/reg_verify_manifest.py:29-35 | one verdict per record |
| VerifyManifest.Reached | tools/reg_verify_manifest.py:29-44 | the loop finishes the leading records whose check does not raise |
| VerifyManifest.CountsAddUp | tools/reg_verify_manifest.py:27-44 | every finished record is counted once, as OK or as FAIL |
| VerifyManifest.NoFailIffAllMatch | tools/reg_verify_manifest.py:37-47 | no FAIL is counted exactly when every finished check matched |
| VerifyManifest.CheckAll | tools/reg_verify_manifest.py:27-47 | `ok + fail` is the number of records checked; status 0 without a FAIL, 2 with one, 1 when a check raises |
| VerifyManifest.VerifyAll | tools/reg_verify_manifest.py:24-47 | no usable manifest: 1; otherwise the loop over the records in sorted id order |
| VerifyIdV1.Run | tools/verify_id_v1.py:18-38 | wrong argument count: 2 and no line; a failed fetch or a bundle without a string `contentHash`/`data` raises (1, no line); otherwise the id, the two digests and then `OK: verified` with 0 exactly when the bundle's digest equals the digest of the data as served, or `FAIL: mismatch` with 1 |
| VerifyIdV1.BuiltBundleChecks | tools/verify_id_v1.py:24-29 | a bundle copied from a build entry checks out against data carrying the placeholder |
| VerifyIdV1.BuiltBundleVerifies | tools/verify_id_v1.py:18-36 | end to end: build, bundle, then this script exits 0 on the id |
| RegVerifyId.Run | tools/reg_verify_id.py:19-42 | wrong argument count: 2; no `sha256:` prefix: 1 with the message; otherwise status 0 with the bare-rule digest printed, OK or FAIL |
| RegVerifyId.ExpectedOfPrefixed | tools/reg_verify_id.py:32 | on a prefixed seal, `split(...)[1]` and `split(...)[-1]` agree |
| RegVerifyId.BareSealedReportsOk | tools/reg_verify_id.py:32-42 | a record storing its own bare-rule seal is reported OK |
| IssueCheck.RidMatches | tools/issue_check.py:5 | `^[A-Z]\d{6}$` matches a capital and six digits, optionally followed by one line break |
| IssueCheck.RidMatchesUpper | tools/issue_check.py:20 | exactly which arguments pass the upper-cased id check, expanding characters such as `ß` and the ligatures included |
| IssueCheck.UpperRidOnlyIf | tools/issue_check.py:20 | an argument whose upper case matches has the id shape |
| IssueCheck.UpperRidIf | tools/issue_check.py:20 | an argument of the id shape upper-cases to a match |
| IssueCheck.Run | tools/issue_check.py:19-56 | the checks in order, each failing with status 2; status 0 exactly when all pass |
| IssueCheck.PassesSealLength | tools/issue_check.py:29-39 | a passing record stores a seal at least as long as `sha256:` and 64 hex digits |
| IssueCheck.BareSealedPasses | tools/issue_check.py:29-50 | a record storing its own bare-rule seal, with its page, id page and the audit index, passes |
| HashProbe.DumpSorted | tools/hash_probe.py:15-20 | `ValueError` for any other mode; compact mode gives the canonical text; pretty mode ends with a newline |
| HashProbe.ProbeExpected | tools/hash_probe.py:27 | the probe's expected digest is no longer than the seal and has no whitespace at either end; without `sha256:` anywhere it is the stripped seal |
| HashProbe.RawCandidate | tools/hash_probe.py:31-32 | candidate A on a record served in canonical form is the plain digest of the record |
| HashProbe.DropKeyCandidate | tools/hash_probe.py:34-37 | candidate B on a record without `contentHash` is the plain digest of the record |
| HashProbe.PrettyText | tools/hash_probe.py:44-47 | the pretty text is what `dump_sorted(..., "sorted_pretty")` returns: an object followed by a newline |
| HashProbe.PrettyCandidate | tools/hash_probe.py:44-47 | candidate D on a record already carrying the placeholder is the hash of its sorted indented text |
| HashProbe.ProbeLines | tools/hash_probe.py:28-49 | nine printed lines, the two `\n`s written inside messages giving empty lines; the expected line ends with the expected digest and each candidate line with its digest |
| HashProbe.Run | tools/hash_probe.py:22-56 | wrong argument count: 2; otherwise the four candidates over copies of the fetched record |
| HashProbe.DropKeyIgnoresContentHash | tools/hash_probe.py:35-37 | candidate B does not see `contentHash` or member order |
| HashProbe.PrettyIgnoresContentHash | tools/hash_probe.py:45-47 | candidate D does not see `contentHash` or member order |
| HashProbe.ProbeExpectedOfSealed | tools/hash_probe.py:27 | reading a stored seal yields its digest |
| HashProbe.ResealedMatchesPlaceholderCandidate | tools/hash_probe.py:39-42 | on a resealed record, candidate C equals the digest read back |
| HashProbe.ProbeExpectedAtFirst | tools/hash_probe.py:27 | for any `contentHash`, the probe keeps the text before the first `sha256:`, drops that occurrence, replaces the rest in turn, then strips; without `sha256:` it only strips |
| HashProbe.ProbeExpectedRemovesEvery | tools/hash_probe.py:27 | on a doubled prefix the probe and the verifiers part: the probe reads the bare digest, the verifiers keep one `sha256:` |
| HashProbe.ProbeDoublePrefix | tools/hash_probe.py:27 | the probe reads the bare digest from a doubled prefix |
| HashProbe.VerifierDoublePrefix | tools/reg_verify_manifest.py:30 | the verifiers keep one `sha256:` from a doubled prefix |
| ApiIndex.NameMatches | tools/gen_api_v1_index.py:10-13 | a matching name starts with a record id followed by `.jsonld`, and anything after that is one line break |
| ApiIndex.IndexRecords | tools/gen_api_v1_index.py:12-16 | the loop's dict has distinct keys, no more entries than names, and string values |
| ApiIndex.Entry | tools/gen_api_v1_index.py:15-16 | an entry's key is the file name without `.jsonld`, and its value `/data/` + the name |
| ApiIndex.MatchesListedName | tools/gen_api_v1_index.py:10-13 | among `.jsonld` names the pattern picks exactly the record file names |
| ApiIndex.HiddenNeverMatches | tools/gen_api_v1_index.py:12-13 | a hidden name never matches |
| ApiIndex.Matching | tools/gen_api_v1_index.py:12-14 | the names kept are exactly the listed names that match |
| ApiIndex.IndexRecordsGet | tools/gen_api_v1_index.py:12-16 | the map sends exactly the ids whose record file is listed to `/data/{rid}.jsonld` |
| ApiIndex.IndexRecordsInOrder | tools/gen_api_v1_index.py:12-16 | the keys are inserted in sorted file-name order |
| ApiIndex.IndexDocFields | tools/gen_api_v1_index.py:18-23 | the index points at the audit index and holds the records map |
| ApiIndex.Run | tools/gen_api_v1_index.py:7-27 | the index is written from the sorted listing and the count printed |
| ApiIndex.IndexedIds | tools/gen_api_v1_index.py:10-16 | an id is indexed exactly when it has the record-id form and a data file |
| Resolve.ResolveFileInjective | tools/gen_api_v1_resolve.py:11 | different ids get different resolve files |
| Resolve.ResolveObject | tools/gen_api_v1_resolve.py:12-19 | a resolve object is a well-formed object of six members |
| Resolve.ResolveIdFields | tools/gen_api_v1_resolve.py:15-16 | `id` is the stem and `resolver` is `/id/{rid}/` |
| Resolve.ResolvePlaceFields | tools/gen_api_v1_resolve.py:17-18 | `page` and `data` are `/page/{rid}/` and `/data/{rid}.jsonld` |
| Resolve.Run | tools/gen_api_v1_resolve.py:6-24 | one resolve object per id, in sorted order, and the count printed |
| Resolve.ResolvePaths | tools/gen_api_v1_resolve.py:10-11 | the files written are exactly those of the listed ids |
| Resolve.OneResolvePerId | tools/gen_api_v1_resolve.py:8-22 | every data id's resolve file holds its resolve object |
| Resolve.AgreesWithBundle | tools/gen_api_v1_resolve.py:15-17 | resolve object and bundle agree on id, id page and page |
| Resolve.AgreesWithRecordsList | tools/gen_api_v1_resolve.py:15-18 | resolve object and `records.json` entry agree on every place |
| Resolve.ResolvesUnindexedIds | tools/gen_api_v1_resolve.py:8 | an id not in record-id form gets a resolve file but no index entry |
| LatestAuditPointer.IndexLatest | tools/build_api_v1_latest_audit.py:17-18 | the index's `latest` when it loads as an object |
| LatestAuditPointer.LatestDoc | tools/build_api_v1_latest_audit.py:24-30 | the pointer document is an object of five distinct keys, well formed exactly when the index's `latest` is |
| LatestAuditPointer.LatestDocFields | tools/build_api_v1_latest_audit.py:28-29 | `latest` is the index's verbatim and `pointer` the audit index |
| LatestAuditPointer.LatestDocStamp | tools/build_api_v1_latest_audit.py:25-27 | `apiVersion`, `base` and `generatedAt` |
| LatestAuditPointer.PyStr | tools/build_api_v1_latest_audit.py:32 | `str()` of a string, None, a bool and an integer |
| LatestAuditPointer.Run | tools/build_api_v1_latest_audit.py:16-32 | unusable index: 1; falsy `latest`: message, 1, nothing written; no `api/v1/` directory: `open` raises, 1, no line, nothing written; otherwise the pointer written and printed |
| LatestAuditPointer.PublishedKeepsDir | tools/build_api_v1_latest_audit.py:11-13 | once `api/v1/latest-audit.json` exists its directory is present, so a rerun does not fail at `open` |
| LatestAuditPointer.PublishesAuditSnapshot | tools/audit_snapshot_manifest.py:62-65 | after an audit append, the new pointer is what gets published |
| LatestAuditPointer.BundlesCarryLatest | tools/gen_api_v1_bundles.py:53-54 | bundles generated afterwards carry the published pointer |
| Wikipedia.DashesFrom | tools/derive_wikipedia.py:41 | the leading run of dashes is measured exactly: dashes up to the returned index, and a non-dash (or the end) there |
| Wikipedia.DashesBefore | tools/derive_wikipedia.py:41 | the trailing run of dashes is measured exactly: dashes from the returned index on, and a non-dash (or the lower bound) before it |
| Wikipedia.TrimDashes | tools/derive_wikipedia.py:41 | `strip("-")` returns the slice of the string between its leading and its trailing dashes, with no dash at either end, and leaves a string with no dash at either end unchanged |
| Wikipedia.TrimDashesKeepsSlug | tools/derive_wikipedia.py:41 | stripping dashes keeps the `[a-z0-9-]` character class and the absence of double dashes |
| Wikipedia.Dashed | tools/derive_wikipedia.py:40-41 | `[a-z0-9-]` only, no two dashes in a row |
| Wikipedia.Slugify | tools/derive_wikipedia.py:38-42 | non-empty, `[a-z0-9-]` only, no dash at either end, no `--` |
| Wikipedia.SlugFixed | tools/derive_wikipedia.py:38-42 | a slug is its own slug |
| Wikipedia.SlugifyIdempotent | tools/derive_wikipedia.py:38-42 | `slugify` is idempotent |
| Wikipedia.TitleTokens | tools/derive_wikipedia.py:48 | title tokens are lower-case ASCII letters and digits |
| Wikipedia.CategoryTokens | tools/derive_wikipedia.py:54-56 | category tokens are lower-case ASCII letters and digits |
| Wikipedia.LongTokens | tools/derive_wikipedia.py:48-58 | a token loop adds only tokens of the list that are long enough and not stop words |
| Wikipedia.CategoriesTags | tools/derive_wikipedia.py:53-58 | every category tag has four or more characters and is not a stop word |
| Wikipedia.LongTokensMembers | tools/derive_wikipedia.py:48-58 | a token loop adds exactly its long enough tokens that are not stop words |
| Wikipedia.CategoriesTagsStep | tools/derive_wikipedia.py:53-58 | each category adds its own tags |
| Wikipedia.WithPhysics | tools/derive_wikipedia.py:61-63 | with `einstein`, `relativity` and `physics` join, and nothing else changes |
| Wikipedia.CategoriesTagsShape | tools/derive_wikipedia.py:53-58 | a category tag has four or more letters or digits and is not a stop word |
| Wikipedia.KeywordTagShape | tools/derive_wikipedia.py:47-58 | a keyword tag has three or more lower-case letters or digits |
| Wikipedia.TagSet | tools/derive_wikipedia.py:44-63 | the tag set holds the keyword tags and has `relativity` and `physics` with `einstein` |
| Wikipedia.TagSetShape | tools/derive_wikipedia.py:44-63 | every derived tag has three or more characters |
| Wikipedia.Elements | tools/derive_wikipedia.py:65 | the set's elements, each once |
| Wikipedia.Sorted | tools/derive_wikipedia.py:65 | `sorted(set)` is strictly ascending, with exactly the set's elements |
| Wikipedia.AddLongTokens | tools/derive_wikipedia.py:48-50 | the token loop adds exactly its qualifying tokens |
| Wikipedia.AddCategoryTags | tools/derive_wikipedia.py:53-58 | one category's token loop adds exactly that category's tags |
| Wikipedia.AddPhysics | tools/derive_wikipedia.py:60-63 | the two additions give the set with `relativity` and `physics` exactly when it holds `einstein` |
| Wikipedia.CollectKeywordTags | tools/derive_wikipedia.py:45-58 | the two loops collect exactly the keyword tags |
| Wikipedia.DeriveTags | tools/derive_wikipedia.py:44-65 | strictly sorted tags, exactly the keyword tags plus the physics normalisation |

## Left out

- HTTP (`urlopen`, request headers, timeouts) is not modelled. The site is a map from path to served document, and a missing path raises.
- SHA-256 is not modelled, nor is `sha256_file`'s chunked read. The hash is a parameter `H`, and the manifest's digest is `H` of its bytes.
- Sealing.PlainMatchesTokenRule: proves only the "if" half. The "only if" half, and tamper sensitivity, need a collision-free hash, which is not assumed.
- JSON parsing (`json.loads`) is not modelled. A file keeps what loading makes of it, or None when loading raises.
- JSON floating-point numbers are not modelled: numbers are integers.
- The clock (`datetime.now`) and `git rev-parse` are parameters.
- Directory creation (`os.makedirs`, `mkdir`) is implicit in the tools that perform it: the tree is a flat map from path to file. `build_api_v1_latest_audit.py` creates no directory, so its model fails when `api/v1/` is absent.
- LatestAuditPointer.Run: a directory counts as present when some file lies under it, so an empty `api/v1/` directory, where Python's `open` succeeds, is read as missing and gives the `FileNotFoundError` exit 1.
- `Exit.lines` holds what a tool prints to stdout, followed by the message of a `SystemExit("FAIL: ...")`, which Python writes to stderr. Only the usage lines printed with `file=sys.stderr` (in `derive_wikipedia.py`, `reg_verify_id.py` and `verify_id_v1.py`) and the text of a traceback are dropped; they add no line.
- `derive_wikipedia.py`'s `main` is not modelled: the Wikipedia query, its outputs and the record it writes are I/O.
- Lone surrogates are not modelled. `json.loads` accepts `"\ud800"`, and `encode("utf-8")` then raises, so a record holding one makes every hashing tool exit 1. A Dafny `char` cannot hold a surrogate, so this error path has no input in the model.
- Path joining is not modelled. `os.path.join` drops the directory when a rid starts with `/`, and `pathlib` collapses `//` and `./`. The model keys every file by the plain concatenation (`"data/" + rid + ".jsonld"`, `"api/v1/bundle/" + rid + ".json"`), so an absolute or dotted rid names a different file in the model than in Python.
- Python's `True == 1` is not modelled: `Equiv` tells booleans and integers apart. The dumps of `true` and `1` differ, so this is the equality under which equal values dump alike.
- `\d` is modelled as the ASCII digits only. Python also matches other Unicode decimal digits.
- Text.UpperChar: covers only the characters whose upper case holds an ASCII letter, expansions included (`ß` to `SS`, the ligatures U+FB00..U+FB06 to `FF`, `FI`, `FL`, `FFI`, `FFL`, `ST`). Characters whose upper case is wholly non-ASCII (`é`, Greek, Cyrillic) are kept.
- Text.LowerChar: covers only the characters whose lower case holds an ASCII letter. Other characters are kept.
- LatestAuditPointer.PyStr: the printed form of a list or object `latest` is a parameter. Python's `repr` of containers is not modelled.
- `tools/reg_get_latest.py` and `tools/reg_api_v1_list.py` are not part of this model. They only fetch and print.
- Build, bundle and audit runs are modelled one at a time. Concurrent runs are not modelled.
