/** `Arara\Config`: the readonly record of credentials and transport settings. */
module Configuration {

  const DefaultBaseUrl: string := "https://api.ararahq.com"
  const DefaultTimeout: int := 30
  const DefaultRetryTimes: int := 3
  const DefaultRetryDelayMs: int := 100
  const DefaultApiVersion: string := "v1"

  /** A datatype value: no field can change once it is built. */
  datatype Config = Config(
    apiKey: string,
    baseUrl: string,
    timeout: int,
    retryTimes: int,
    retryDelayMs: int,
    apiVersion: string)

  /**
   * `new Config(...)`: every supplied value is stored verbatim, with no
   * validation (an empty key is accepted), and every omitted one takes its
   * class constant.
   */
  function NewConfig(
    apiKey: string,
    baseUrl: string := DefaultBaseUrl,
    timeout: int := DefaultTimeout,
    retryTimes: int := DefaultRetryTimes,
    retryDelayMs: int := DefaultRetryDelayMs,
    apiVersion: string := DefaultApiVersion): (c: Config)
    ensures c.apiKey == apiKey && c.baseUrl == baseUrl && c.timeout == timeout
    ensures c.retryTimes == retryTimes && c.retryDelayMs == retryDelayMs && c.apiVersion == apiVersion
  {
    Config(apiKey, baseUrl, timeout, retryTimes, retryDelayMs, apiVersion)
  }

  /** A key alone yields the documented defaults. */
  lemma DefaultsApply(apiKey: string)
    ensures NewConfig(apiKey) ==
              Config(apiKey, "https://api.ararahq.com", 30, 3, 100, "v1")
  {
  }
}
