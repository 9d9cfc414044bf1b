/**
 * The records of the shared `common` package that the registry and the engine read or build.
 * Only the fields the registry and the engine touch are kept.
 */
module Common {

  /** A recognised product. `from` is the rendered name of the engine that produced it. */
  datatype Framework = Framework(name: string, from: string)

  /** A vulnerability report attached to a match; opaque to the engine. */
  datatype Vuln = Vuln(name: string)

  /** A CPE-style attribute tuple (the WFN of the CPE naming specification). */
  datatype Attributes = Attributes(
    part: string,
    vendor: string,
    product: string,
    version: string,
    update: string,
    edition: string)
}
