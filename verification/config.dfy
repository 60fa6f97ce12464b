/** Run configuration and its validation (main.go:32-40, 192-204). */
module Configuration {
  import opened Types

  datatype Config = Config(
    immichUrl: string,
    apiKey: string,
    autoDelete: bool,
    dryRun: bool,
    yes: bool,
    verbose: bool)

  datatype ConfigError = UrlRequired | ApiKeyRequired

  /** `s` without one trailing `suffix`, if it has one (`strings.TrimSuffix`). */
  function TrimSuffix(s: string, suffix: string): string {
    if |suffix| <= |s| && s[|s| - |suffix|..] == suffix then s[..|s| - |suffix|] else s
  }

  predicate EndsWithSlash(s: string) {
    |s| > 0 && s[|s| - 1] == '/'
  }

  /** A missing URL is reported before a missing key; a valid configuration
      comes back with at most one trailing slash removed from its URL and
      every other setting untouched. */
  function ValidateConfig(c: Config): (r: Result<Config, ConfigError>)
    ensures r.Failure? <==> c.immichUrl == "" || c.apiKey == ""
    ensures c.immichUrl == "" ==> r == Failure(UrlRequired)
    ensures c.immichUrl != "" && c.apiKey == "" ==> r == Failure(ApiKeyRequired)
    ensures r.Success? ==> r.value.(immichUrl := c.immichUrl) == c
    ensures r.Success? && EndsWithSlash(c.immichUrl) ==> r.value.immichUrl + "/" == c.immichUrl
    ensures r.Success? && !EndsWithSlash(c.immichUrl) ==> r.value.immichUrl == c.immichUrl
  {
    if c.immichUrl == "" then Failure(UrlRequired)
    else if c.apiKey == "" then Failure(ApiKeyRequired)
    else
      var url := TrimSuffix(c.immichUrl, "/");
      assert EndsWithSlash(c.immichUrl) ==> url + "/" == c.immichUrl;
      Success(c.(immichUrl := url))
  }

  /** Only one slash goes: a URL ending in two keeps one, and a URL that is a
      single slash validates to an empty URL. */
  lemma OneSlashRemoved(key: string)
    requires key != ""
    ensures ValidateConfig(Config("http://h//", key, false, false, false, false)).value.immichUrl == "http://h/"
    ensures ValidateConfig(Config("/", key, false, false, false, false)).value.immichUrl == ""
  {
  }

  /** The cases of the repository's test (main_test.go:28-58). */
  lemma ValidateConfigExamples()
    ensures ValidateConfig(Config("http://localhost:2283", "test-key", false, false, false, false))
      == Success(Config("http://localhost:2283", "test-key", false, false, false, false))
    ensures ValidateConfig(Config("", "test-key", false, false, false, false)) == Failure(UrlRequired)
    ensures ValidateConfig(Config("http://localhost:2283", "", false, false, false, false)) == Failure(ApiKeyRequired)
    ensures ValidateConfig(Config("http://localhost:2283/", "test-key", false, false, false, false))
      == Success(Config("http://localhost:2283", "test-key", false, false, false, false))
  {
    var slashed := "http://localhost:2283/";
    assert slashed[|slashed| - 1..] == "/";
    assert slashed[..|slashed| - 1] == "http://localhost:2283";
  }
}
