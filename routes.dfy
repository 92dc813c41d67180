/** The site's base URL and the per-record paths every tool derives from an id. */
module Routes {
  import Text

  const BASE := "https://napier369.github.io/registry.parasks"
  const API_VERSION := "v1"
  /** Where the audit log index is published (and kept in the tree, without the leading slash). */
  const AUDIT_INDEX := "/audit/logs/index.json"

  /** A record id in the registry's own form: an ASCII capital letter and six ASCII digits (`E000004`). */
  predicate IsRid(s: string)
  {
    |s| == 7 && Text.IsAsciiUpper(s[0]) && forall i :: 1 <= i < 7 ==> Text.IsDigit(s[i])
  }

  /** `f"/data/{rid}.jsonld"`. */
  function DataPath(rid: string): string
  {
    "/data/" + rid + ".jsonld"
  }

  /** `f"/page/{rid}/"`. */
  function PagePath(rid: string): string
  {
    "/page/" + rid + "/"
  }

  /** `f"/id/{rid}/"`. */
  function ResolverPath(rid: string): string
  {
    "/id/" + rid + "/"
  }

  // Paths inside the repository tree, relative to its root.

  const MANIFEST_FILE := "api/v1/manifest.json"
  const AUDIT_INDEX_FILE := "audit/logs/index.json"
  const LATEST_AUDIT_FILE := "api/v1/latest-audit.json"

  /** `api/v1/bundle/{rid}.json`. */
  function BundleFile(rid: string): string
  {
    "api/v1/bundle/" + rid + ".json"
  }

  /** Different ids get different bundle files. */
  lemma BundleFileInjective(a: string, b: string)
    requires BundleFile(a) == BundleFile(b)
    ensures a == b
  {
    var n := |"api/v1/bundle/"|;
    assert a == BundleFile(a)[n..n + |a|];
    assert b == BundleFile(b)[n..n + |b|];
  }
}
