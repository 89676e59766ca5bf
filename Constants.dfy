/** The literal settings of the extension, under their own names. */
module Constants {

  // PROCESSING
  const TimeoutMs: nat := 30000
  const MaxBufferBytes: nat := 1024 * 1024
  const TempFilePrefix: string := "xml2rfc"
  const DebounceDelayMs: nat := 250

  // ERRORS
  const FileWriteError: string := "Failed to write temporary XML file"
  const FileReadError: string := "Failed to read generated HTML file"
  const InvalidOutputError: string := "xml2rfc did not generate valid HTML output"
  const CommandNotFoundError: string := "xml2rfc command not found. Please install xml2rfc: pip install xml2rfc"
  const TimeoutError: string := "xml2rfc process timed out"

  // UI: the end column of every diagnostic range is Number.MAX_VALUE, the largest
  // finite double, 2^1024 - 2^971, which is an integer and written out exactly here
  const MaxLineLength: nat := 179769313486231570814527423731704356798070567525844996598917476803157260780028538760589558632766878171540458953514382464234321326889464182768467546703537516986049910576551282076245490090389328944075868508455133942304583236903222948165808559332123348274797826204144723168738177180919299881250404026184124858368

  // VALIDATION
  const RfcRootElement: string := "rfc"
  const ParserErrorTag: string := "parsererror"
}
